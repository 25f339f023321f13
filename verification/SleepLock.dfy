/**
 Sleep locks (kernel/sleeplock.c) on top of sleep and wakeup (kernel/proc.c), as a state
 machine: every step is one acquisition or release of a spinlock or what a process does
 between two of them, and the steps of the processes interleave in any order.
 */
module SleepLock {
  datatype Run = RUNNING | RUNNABLE | SLEEPING

  // Where a process is in the code.
  datatype PC =
    | Out                 // does not hold the sleep lock
    | Enter               // acquiresleep: acquire(&lk->lk)
    | Test                // while (lk->locked)
    | Store               // locked = 1; pid = myproc()->pid
    | Leave               // release(&lk->lk)
    | Held                // holds the sleep lock
    | LockSelf            // sleep: acquire(&p->lock)
    | Drop                // release(lk)
    | SetChan             // p->chan = chan
    | SetState            // p->state = SLEEPING
    | Sched               // sched(), up to the scheduler's release(&p->lock)
    | Asleep              // off the CPU
    | ClearChan           // p->chan = 0
    | Unlock              // release(&p->lock)
    | Retake              // acquire(lk)
    | Exit                // releasesleep: acquire(&lk->lk)
    | Clear               // locked = 0; pid = 0
    | Wake(j: nat)        // wakeup: process j is next; release(&lk->lk) after the last one
    | Rouse(j: nat)       // the test of process j under its lock
    | Pass(j: nat)        // release(&p->lock)

  datatype Proc = Proc(pc: PC, run: Run, chan: bool)

  // plock[j] and lk: the process that holds the spinlock of process j, or of the sleep lock,
  // -1 for none.  pid: the holder's pid, -1 for none.
  datatype State = State(procs: seq<Proc>, plock: seq<int>, lk: int, locked: bool, pid: int)

  datatype Action = Go(i: nat) | Dispatch(i: nat) | Yield(i: nat) | Kill(j: nat)

  predicate Init(s: State) {
    && |s.plock| == |s.procs| && s.lk == -1 && !s.locked && s.pid == -1
    && forall i :: 0 <= i < |s.procs| ==> s.procs[i] == Proc(Out, RUNNABLE, false) && s.plock[i] == -1
  }

  function At(s: State, i: nat, pc: PC): State
    requires i < |s.procs|
  {
    s.(procs := s.procs[i := s.procs[i].(pc := pc)])
  }

  // Interrupts are on: the process holds no spinlock.
  predicate Preemptible(pc: PC) { pc.Out? || pc.Held? || pc.Enter? || pc.Retake? || pc.Exit? }

  // Whether process i can take its next step.
  predicate Enabled(s: State, i: nat)
    requires i < |s.procs| == |s.plock|
  {
    var p := s.procs[i];
    match p.pc
    case Asleep => false
    case Sched => true
    case Enter | Retake | Exit => p.run == RUNNING && s.lk == -1
    case LockSelf => p.run == RUNNING && s.plock[i] == -1
    case Wake(j) => p.run == RUNNING && (j < |s.procs| && j != i ==> s.plock[j] == -1)
    case Rouse(j) => p.run == RUNNING && j < |s.procs|
    case Pass(j) => p.run == RUNNING && j < |s.procs|
    case _ => p.run == RUNNING
  }

  // The next step of process i.
  function Go1(s: State, i: nat): (t: State)
    requires i < |s.procs| == |s.plock| && Enabled(s, i)
    ensures |t.procs| == |t.plock| == |s.procs|
  {
    var p := s.procs[i];
    match p.pc
    case Out => At(s, i, Enter)
    case Enter => At(s, i, Test).(lk := i)
    case Test => At(s, i, if s.locked then LockSelf else Store)
    case Store => At(s, i, Leave).(locked := true, pid := i)
    case Leave => At(s, i, Held).(lk := -1)
    case Held => At(s, i, Exit)
    case LockSelf => At(s, i, Drop).(plock := s.plock[i := i])
    case Drop => At(s, i, SetChan).(lk := -1)
    case SetChan => s.(procs := s.procs[i := Proc(SetState, p.run, true)])
    case SetState => s.(procs := s.procs[i := Proc(Sched, SLEEPING, p.chan)])
    case Sched => At(s, i, Asleep).(plock := s.plock[i := -1])
    case ClearChan => s.(procs := s.procs[i := Proc(Unlock, p.run, false)])
    case Unlock => At(s, i, Retake).(plock := s.plock[i := -1])
    case Retake => At(s, i, Test).(lk := i)
    case Exit => At(s, i, Clear).(lk := i)
    case Clear => At(s, i, Wake(0)).(locked := false, pid := -1)
    case Wake(j) =>
      if j >= |s.procs| then At(s, i, Out).(lk := -1)
      else if j == i then At(s, i, Wake(j + 1))
      else At(s, i, Rouse(j)).(plock := s.plock[j := i])
    case Rouse(j) =>
      var t := At(s, i, Pass(j));
      var q := t.procs[j];
      if q.run == SLEEPING && q.chan then t.(procs := t.procs[j := q.(run := RUNNABLE)]) else t
    case Pass(j) => At(s, i, Wake(j + 1)).(plock := s.plock[j := -1])
    case Asleep => s
  }

  // One step of a process, of the scheduler, of a timer interrupt, or of kill.
  predicate Step(s: State, a: Action, t: State)
    requires |s.plock| == |s.procs|
  {
    match a
    case Go(i) => i < |s.procs| && Enabled(s, i) && t == Go1(s, i)
    case Dispatch(i) =>
      && i < |s.procs| && s.plock[i] == -1 && s.procs[i].run == RUNNABLE
      && t == if s.procs[i].pc.Asleep?
              then s.(procs := s.procs[i := Proc(ClearChan, RUNNING, s.procs[i].chan)], plock := s.plock[i := i])
              else s.(procs := s.procs[i := s.procs[i].(run := RUNNING)])
    case Yield(i) =>
      && i < |s.procs| && s.plock[i] == -1 && s.procs[i].run == RUNNING && Preemptible(s.procs[i].pc)
      && t == s.(procs := s.procs[i := s.procs[i].(run := RUNNABLE)])
    case Kill(j) =>
      && j < |s.procs| && s.plock[j] == -1
      && t == if s.procs[j].run == SLEEPING then s.(procs := s.procs[j := s.procs[j].(run := RUNNABLE)]) else s
  }

  // --- the invariant ---

  // pc is a place where the process holds lk->lk.
  predicate InLk(pc: PC) {
    match pc
    case Test | Store | Leave | LockSelf | Drop | Clear => true
    case Wake(_) | Rouse(_) | Pass(_) => true
    case _ => false
  }

  // Process i, at pc, holds the spinlock of process j.
  predicate Has(pc: PC, i: nat, j: nat) {
    match pc
    case Drop | SetChan | SetState | Sched | ClearChan | Unlock => i == j
    case Rouse(k) => k == j
    case Pass(k) => k == j
    case _ => false
  }

  // pc is a place where the process holds the sleep lock.
  predicate Owner(pc: PC) { pc.Leave? || pc.Held? || pc.Exit? || pc.Clear? }

  // Process i decided to sleep, and nobody made it runnable since.
  predicate Waiting(p: Proc) {
    p.pc.LockSelf? || p.pc.Drop? || p.pc.SetChan? || p.pc.SetState? || p.run == SLEEPING
  }

  // A wakeup in progress has not passed process i.
  predicate Pending(s: State, i: nat) {
    0 <= s.lk < |s.procs| && match s.procs[s.lk].pc
                             case Wake(j) => j <= i
                             case Rouse(j) => j <= i
                             case Pass(j) => j < i
                             case _ => false
  }

  predicate Placed(s: State, i: nat)
    requires i < |s.procs| == |s.plock|
  {
    var p := s.procs[i];
    && (InLk(p.pc) ==> s.lk == i) && (Owner(p.pc) <==> s.pid == i)
    && (p.run == SLEEPING ==> (p.pc.Sched? || p.pc.Asleep?) && p.chan)
    && (p.pc.Sched? ==> p.run == SLEEPING) && (p.pc.Asleep? ==> p.run != RUNNING) && (p.pc.SetState? ==> p.chan)
    && (p.chan ==> p.pc.SetState? || p.pc.Sched? || p.pc.Asleep? || p.pc.ClearChan?)
    && (p.pc.Rouse? || p.pc.Pass? ==> p.pc.j < |s.procs| && p.pc.j != i)
    && (p.pc.Store? ==> !s.locked) && (p.pc.LockSelf? || p.pc.Drop? ==> s.locked)
    && (p.pc.Wake? || p.pc.Rouse? || p.pc.Pass? ==> !s.locked)
    && (p.run == RUNNABLE ==> Preemptible(p.pc) || p.pc.Asleep?)
  }

  // A process that is going to sleep, or asleep, will be woken: the lock is held, or the
  // wakeup for its release is still to come to it.
  predicate Covered(s: State, i: nat)
    requires i < |s.procs| == |s.plock|
  {
    Waiting(s.procs[i]) ==> s.locked || Pending(s, i)
  }

  predicate ProcOk(s: State, i: nat)
    requires i < |s.procs| == |s.plock|
  {
    Placed(s, i) && Covered(s, i)
  }

  // Spinlocks are held by exactly the processes whose place says so.
  ghost predicate LocksOk(s: State)
    requires |s.plock| == |s.procs|
  {
    && -1 <= s.lk < |s.procs| && (s.lk >= 0 ==> InLk(s.procs[s.lk].pc))
    && (forall j :: 0 <= j < |s.procs| ==> -1 <= s.plock[j] < |s.procs|)
    && (forall j :: 0 <= j < |s.procs| && s.plock[j] >= 0 ==> Has(s.procs[s.plock[j]].pc, s.plock[j], j))
    && (forall i, j :: 0 <= i < |s.procs| && 0 <= j < |s.procs| && Has(s.procs[i].pc, i, j) ==> s.plock[j] == i)
  }

  ghost predicate Inv(s: State) {
    && |s.plock| == |s.procs| && LocksOk(s) && -1 <= s.pid < |s.procs| && (s.locked <==> s.pid >= 0)
    && (forall i :: 0 <= i < |s.procs| ==> ProcOk(s, i))
  }

  lemma InitInv(s: State)
    requires Init(s)
    ensures Inv(s)
  {
  }

  lemma LocksAt(s: State, k: nat, j: nat)
    requires |s.plock| == |s.procs| && LocksOk(s) && k < |s.procs| && j < |s.procs|
    ensures Has(s.procs[k].pc, k, j) ==> s.plock[j] == k
    ensures -1 <= s.plock[j] < |s.procs| && (s.plock[j] >= 0 ==> Has(s.procs[s.plock[j]].pc, s.plock[j], j))
    ensures -1 <= s.lk < |s.procs| && (s.lk >= 0 ==> InLk(s.procs[s.lk].pc))
  {
  }

  lemma GoHas(s: State, i: nat, k: nat, j: nat)
    requires Inv(s) && i < |s.procs| == |s.plock| && Enabled(s, i) && k < |s.procs| && j < |s.procs|
    ensures var t := Go1(s, i); Has(t.procs[k].pc, k, j) ==> t.plock[j] == k
  {
    hide Waiting, Pending, Owner, LocksOk;
    assert ProcOk(s, i);
    LocksAt(s, k, j);
    LocksAt(s, i, j);
    LocksAt(s, i, i);
  }

  lemma GoHolder(s: State, i: nat, j: nat)
    requires Inv(s) && i < |s.procs| == |s.plock| && Enabled(s, i) && j < |s.procs|
    ensures var t := Go1(s, i);
            && -1 <= t.plock[j] < |s.procs|
            && (t.plock[j] >= 0 ==> Has(t.procs[t.plock[j]].pc, t.plock[j], j))
  {
    hide Waiting, Pending, Owner, LocksOk;
    assert ProcOk(s, i);
    LocksAt(s, i, j);
  }

  lemma GoLk(s: State, i: nat)
    requires Inv(s) && i < |s.procs| == |s.plock| && Enabled(s, i)
    ensures var t := Go1(s, i); -1 <= t.lk < |t.procs| && (t.lk >= 0 ==> InLk(t.procs[t.lk].pc))
  {
    hide Waiting, Pending, Owner, LocksOk;
    assert ProcOk(s, i);
    LocksAt(s, i, i);
  }

  lemma GoLocks(s: State, i: nat)
    requires Inv(s) && i < |s.procs| == |s.plock| && Enabled(s, i)
    ensures LocksOk(Go1(s, i))
  {
    hide Inv, Go1, Enabled, Has, InLk;
    GoLk(s, i);
    var t := Go1(s, i);
    forall j | 0 <= j < |s.procs|
      ensures -1 <= t.plock[j] < |s.procs| && (t.plock[j] >= 0 ==> Has(t.procs[t.plock[j]].pc, t.plock[j], j))
    {
      GoHolder(s, i, j);
    }
    forall k, j | 0 <= k < |s.procs| && 0 <= j < |s.procs| && Has(t.procs[k].pc, k, j) ensures t.plock[j] == k {
      GoHas(s, i, k, j);
    }
  }

  lemma GoSelf(s: State, i: nat)
    requires Inv(s) && i < |s.procs| == |s.plock| && Enabled(s, i)
    ensures Placed(Go1(s, i), i)
  {
    var pc := s.procs[i].pc;
    if pc.Wake? || pc.Rouse? || pc.Pass? { SelfWake(s, i); } else { SelfQuiet(s, i); }
  }

  lemma SelfWake(s: State, i: nat)
    requires Inv(s) && i < |s.procs| == |s.plock| && Enabled(s, i)
    requires s.procs[i].pc.Wake? || s.procs[i].pc.Rouse? || s.procs[i].pc.Pass?
    ensures Placed(Go1(s, i), i)
  {
    hide LocksOk, Has, Covered;
    assert ProcOk(s, i);
    LocksAt(s, i, i);
  }

  lemma SelfQuiet(s: State, i: nat)
    requires Inv(s) && i < |s.procs| == |s.plock| && Enabled(s, i)
    requires !s.procs[i].pc.Wake? && !s.procs[i].pc.Rouse? && !s.procs[i].pc.Pass?
    ensures Placed(Go1(s, i), i)
  {
    hide LocksOk, Has, Covered;
    assert ProcOk(s, i);
    LocksAt(s, i, i);
  }

  lemma GoPid(s: State, i: nat)
    requires Inv(s) && i < |s.procs| == |s.plock| && Enabled(s, i)
    ensures -1 <= Go1(s, i).pid < |s.procs| && (Go1(s, i).locked <==> Go1(s, i).pid >= 0)
  {
    hide LocksOk, Has, Covered;
    assert ProcOk(s, i);
  }

  lemma GoOther(s: State, i: nat, k: nat)
    requires Inv(s) && i < |s.procs| == |s.plock| && Enabled(s, i) && k < |s.procs| && k != i
    ensures Placed(Go1(s, i), k)
  {
    if s.procs[i].pc.Rouse? { RouseOther(s, i, k); } else { QuietOther(s, i, k); }
  }

  lemma RouseOther(s: State, i: nat, k: nat)
    requires Inv(s) && i < |s.procs| == |s.plock| && Enabled(s, i) && k < |s.procs| && k != i && s.procs[i].pc.Rouse?
    ensures Placed(Go1(s, i), k)
  {
    hide LocksOk, Waiting, Pending;
    assert ProcOk(s, i) && ProcOk(s, k);
    LocksAt(s, i, k);
    LocksAt(s, k, k);
  }

  // Other steps leave process k alone.
  lemma QuietOther(s: State, i: nat, k: nat)
    requires Inv(s) && i < |s.procs| == |s.plock| && Enabled(s, i) && k < |s.procs| && k != i && !s.procs[i].pc.Rouse?
    ensures Go1(s, i).procs[k] == s.procs[k] && Placed(Go1(s, i), k)
  {
    hide LocksOk, Waiting, Pending, Has;
    assert ProcOk(s, i) && ProcOk(s, k);
  }

  lemma GoCovered(s: State, i: nat, k: nat)
    requires Inv(s) && i < |s.procs| == |s.plock| && Enabled(s, i) && k < |s.procs|
    ensures Covered(Go1(s, i), k)
  {
    var pc := s.procs[i].pc;
    if pc.Wake? || pc.Rouse? || pc.Pass? { WakeCovered(s, i, k); } else { QuietCovered(s, i, k); }
  }

  lemma WakeCovered(s: State, i: nat, k: nat)
    requires Inv(s) && i < |s.procs| == |s.plock| && Enabled(s, i) && k < |s.procs|
    requires s.procs[i].pc.Wake? || s.procs[i].pc.Rouse? || s.procs[i].pc.Pass?
    ensures Covered(Go1(s, i), k)
  {
    hide LocksOk, Owner;
    assert ProcOk(s, i) && ProcOk(s, k);
    LocksAt(s, i, k);
    LocksAt(s, k, k);
  }

  lemma QuietCovered(s: State, i: nat, k: nat)
    requires Inv(s) && i < |s.procs| == |s.plock| && Enabled(s, i) && k < |s.procs|
    requires !s.procs[i].pc.Wake? && !s.procs[i].pc.Rouse? && !s.procs[i].pc.Pass?
    ensures Covered(Go1(s, i), k)
  {
    hide LocksOk, Owner, Has;
    assert ProcOk(s, i) && ProcOk(s, k);
    LocksAt(s, k, k);
  }

  lemma GoInv(s: State, i: nat)
    requires Inv(s) && i < |s.procs| == |s.plock| && Enabled(s, i)
    ensures Inv(Go1(s, i))
  {
    hide Placed, Covered, LocksOk, Go1, Enabled;
    GoLocks(s, i);
    GoPid(s, i);
    GoSelf(s, i);
    forall k | 0 <= k < |s.procs| ensures ProcOk(Go1(s, i), k) {
      if k != i { GoOther(s, i, k); }
      GoCovered(s, i, k);
    }
  }

  // --- runs ---

  lemma StepInv(s: State, a: Action, t: State)
    requires Inv(s) && Step(s, a, t)
    ensures Inv(t) && |t.procs| == |s.procs|
  {
    if a.Go? {
      GoInv(s, a.i);
    } else {
      OutsideInv(s, a, t);
    }
  }

  lemma OutsideInv(s: State, a: Action, t: State)
    requires Inv(s) && Step(s, a, t) && !a.Go?
    ensures Inv(t) && |t.procs| == |s.procs|
  {
    hide ProcOk, LocksOk;
    OutsideLocks(s, a, t);
    forall k | 0 <= k < |s.procs| ensures ProcOk(t, k) { OutsideProc(s, a, t, k); }
  }

  lemma OutsideProc(s: State, a: Action, t: State, k: nat)
    requires Inv(s) && Step(s, a, t) && !a.Go? && k < |s.procs|
    ensures |t.plock| == |t.procs| == |s.procs| && ProcOk(t, k)
  {
    var i := match a case Dispatch(i) => i case Yield(i) => i case Kill(i) => i case Go(i) => i;
    if k == i { OutsideSelf(s, a, t, k); } else { OutsideOther(s, a, t, i, k); }
  }

  lemma OutsideSelf(s: State, a: Action, t: State, i: nat)
    requires Inv(s) && Step(s, a, t) && i < |s.procs| && (a == Dispatch(i) || a == Yield(i) || a == Kill(i))
    ensures |t.plock| == |t.procs| == |s.procs| && ProcOk(t, i)
  {
    hide LocksOk;
    assert ProcOk(s, i);
    LocksAt(s, i, i);
  }

  lemma OutsideOther(s: State, a: Action, t: State, i: nat, k: nat)
    requires Inv(s) && Step(s, a, t) && i < |s.procs| && (a == Dispatch(i) || a == Yield(i) || a == Kill(i))
    requires k < |s.procs| && k != i
    ensures |t.plock| == |t.procs| == |s.procs| && ProcOk(t, k)
  {
    hide LocksOk;
    assert ProcOk(s, i) && ProcOk(s, k);
    LocksAt(s, i, i);
    LocksAt(s, k, k);
  }

  lemma OutsideLocks(s: State, a: Action, t: State)
    requires Inv(s) && Step(s, a, t) && !a.Go?
    ensures |t.plock| == |t.procs| && LocksOk(t)
  {
    hide Placed, Covered, LocksOk, InLk, Has;
    forall k, j | 0 <= k < |t.procs| && 0 <= j < |t.procs| && Has(t.procs[k].pc, k, j) ensures t.plock[j] == k {
      OutsideLock(s, a, t, k, j);
    }
    forall j | 0 <= j < |t.procs|
      ensures -1 <= t.plock[j] < |t.procs| && (t.plock[j] >= 0 ==> Has(t.procs[t.plock[j]].pc, t.plock[j], j))
    {
      OutsideLock(s, a, t, j, j);
    }
    OutsideLk(s, a, t);
    LocksIntro(t);
  }

  lemma LocksIntro(t: State)
    requires |t.plock| == |t.procs| && -1 <= t.lk < |t.procs| && (t.lk >= 0 ==> InLk(t.procs[t.lk].pc))
    requires forall j :: 0 <= j < |t.procs| ==> -1 <= t.plock[j] < |t.procs|
    requires forall j :: 0 <= j < |t.procs| && t.plock[j] >= 0 ==> Has(t.procs[t.plock[j]].pc, t.plock[j], j)
    requires forall k, j :: 0 <= k < |t.procs| && 0 <= j < |t.procs| && Has(t.procs[k].pc, k, j) ==> t.plock[j] == k
    ensures LocksOk(t)
  {
  }

  lemma OutsideLock(s: State, a: Action, t: State, k: nat, j: nat)
    requires Inv(s) && Step(s, a, t) && !a.Go? && k < |s.procs| && j < |s.procs|
    ensures |t.plock| == |t.procs| == |s.procs|
    ensures Has(t.procs[k].pc, k, j) ==> t.plock[j] == k
    ensures -1 <= t.plock[j] < |t.procs| && (t.plock[j] >= 0 ==> Has(t.procs[t.plock[j]].pc, t.plock[j], j))
  {
    hide Placed, Covered, LocksOk, InLk;
    LocksAt(s, k, j);
    var i := match a case Dispatch(i) => i case Yield(i) => i case Kill(i) => i case Go(i) => i;
    LocksAt(s, i, j);
  }

  lemma OutsideLk(s: State, a: Action, t: State)
    requires Inv(s) && Step(s, a, t) && !a.Go?
    ensures |t.plock| == |t.procs| && -1 <= t.lk < |t.procs| && (t.lk >= 0 ==> InLk(t.procs[t.lk].pc))
  {
    hide Placed, Covered, Has;
  }

  // The states of a run, one more than its actions.
  ghost predicate Execution(states: seq<State>, actions: seq<Action>) {
    && |states| == |actions| + 1 && Init(states[0])
    && forall i :: 0 <= i < |actions| ==> |states[i].plock| == |states[i].procs| && Step(states[i], actions[i], states[i + 1])
  }

  /** Who changes the state of process j: it falls asleep by itself, on its channel; a wakeup by a
      process that has just released the sleep lock, or kill, makes it runnable; only the
      scheduler runs it, and only a runnable one; a timer makes a running one runnable. */
  lemma RunChanges(s: State, a: Action, t: State, j: nat)
    requires Inv(s) && Step(s, a, t) && j < |s.procs| == |t.procs| && s.procs[j].run != t.procs[j].run
    ensures var p, q := s.procs[j], t.procs[j];
            match a
            case Go(i) =>
              if i == j then p.pc.SetState? && p.chan && p.run == RUNNING && q.run == SLEEPING
              else i < |s.procs| && s.procs[i].pc == Rouse(j) && !s.locked && p.chan && p.run == SLEEPING && q.run == RUNNABLE
            case Dispatch(i) => i == j && p.run == RUNNABLE && q.run == RUNNING
            case Yield(i) => i == j && p.run == RUNNING && q.run == RUNNABLE
            case Kill(i) => i == j && p.run == SLEEPING && q.run == RUNNABLE
  {
    hide LocksOk, Covered;
    if a.Go? && a.i < |s.procs| { assert ProcOk(s, a.i) && ProcOk(s, j); }
  }

  lemma {:induction false} Always(states: seq<State>, actions: seq<Action>, n: nat)
    requires Execution(states, actions) && n < |states|
    ensures Inv(states[n])
  {
    if n == 0 {
      InitInv(states[0]);
    } else {
      Always(states, actions, n - 1);
      StepInv(states[n - 1], actions[n - 1], states[n]);
    }
  }

  // At most one process holds the sleep lock, and it is the one whose pid is stored.
  lemma MutualExclusion(states: seq<State>, actions: seq<Action>, n: nat, i: nat, j: nat)
    requires Execution(states, actions) && n < |states| && i < |states[n].procs| && j < |states[n].procs|
    requires states[n].procs[i].pc.Held? && states[n].procs[j].pc.Held?
    ensures i == j && states[n].locked && states[n].pid == i
  {
    Always(states, actions, n);
    assert ProcOk(states[n], i) && ProcOk(states[n], j);
  }

  // No wakeup is lost: while the inner spinlock is free and the sleep lock is not held, no
  // process sleeps on it, or is between the release of the spinlock and the switch.
  lemma NoLostWakeup(states: seq<State>, actions: seq<Action>, n: nat, i: nat)
    requires Execution(states, actions) && n < |states| && i < |states[n].procs|
    requires states[n].lk == -1 && !states[n].locked
    ensures states[n].procs[i].run != SLEEPING
    ensures !states[n].procs[i].pc.SetChan? && !states[n].procs[i].pc.SetState? && !states[n].procs[i].pc.Sched?
  {
    Always(states, actions, n);
    assert ProcOk(states[n], i);
  }

  // --- no deadlock ---

  // In the middle of acquiresleep or releasesleep, and not asleep.
  predicate Busy(pc: PC) { !pc.Out? && !pc.Held? && !pc.Asleep? }

  // While h holds lk->lk on its way to sleep, no waker holds its spinlock.
  lemma NotByOthers(s: State, h: nat, w: nat)
    requires Inv(s) && |s.plock| == |s.procs| && h < |s.procs| && s.procs[h].pc.LockSelf? && w < |s.procs|
    ensures s.plock[h] != w
  {
    assert ProcOk(s, h) && ProcOk(s, w);
  }

  // Process i can take its next step, or the scheduler can run it.
  predicate CanRun(s: State, i: nat)
    requires i < |s.procs| == |s.plock|
  {
    Enabled(s, i) || (s.procs[i].run == RUNNABLE && s.plock[i] == -1)
  }

  // The holder of a process's spinlock can go on, if the holder of lk->lk waits for it.
  lemma HolderRuns(s: State, h: nat)
    requires Inv(s) && |s.plock| == |s.procs| && h < |s.procs| && s.lk == h && !Enabled(s, h)
    ensures s.procs[h].pc.Wake? && s.procs[h].pc.j < |s.procs| && 0 <= s.plock[s.procs[h].pc.j] < |s.procs|
    ensures var w := s.plock[s.procs[h].pc.j]; Busy(s.procs[w].pc) && Enabled(s, w)
  {
    hide LocksOk, Waiting, Pending, Owner;
    assert ProcOk(s, h);
    LocksAt(s, h, h);
    if s.procs[h].pc.LockSelf? {
      NotByOthers(s, h, s.plock[h]);
    } else {
      LocksAt(s, h, s.procs[h].pc.j);
      var w := s.plock[s.procs[h].pc.j];
      assert ProcOk(s, w);
    }
  }

  // While a process is busy, some busy process can take its next step, at once or when the
  // scheduler runs it again.
  lemma NotStuck(s: State, i: nat) returns (k: nat)
    requires Inv(s) && |s.plock| == |s.procs| && i < |s.procs| && Busy(s.procs[i].pc)
    ensures k < |s.procs| && Busy(s.procs[k].pc) && CanRun(s, k)
  {
    k := i;
    if !CanRun(s, k) {
      if s.procs[i].run == RUNNABLE {
        k := WakerRuns(s, i);
      } else {
        BusyRuns(s, i);
        k := s.lk;
        if !Enabled(s, k) {
          HolderRuns(s, k);
          k := s.plock[s.procs[k].pc.j];
        }
      }
    }
  }

  // Whoever holds the spinlock of a process that was preempted is about to release it.
  lemma WakerRuns(s: State, i: nat) returns (w: nat)
    requires Inv(s) && |s.plock| == |s.procs| && i < |s.procs| && Busy(s.procs[i].pc)
    requires s.procs[i].run == RUNNABLE && s.plock[i] != -1
    ensures w < |s.procs| && Busy(s.procs[w].pc) && Enabled(s, w)
  {
    hide LocksOk, Waiting, Pending, Owner;
    assert ProcOk(s, i);
    LocksAt(s, i, i);
    w := s.plock[i];
    assert ProcOk(s, w);
  }

  // A running process that cannot go on waits for lk->lk, or holds it.
  lemma BusyRuns(s: State, i: nat)
    requires Inv(s) && |s.plock| == |s.procs| && i < |s.procs| && Busy(s.procs[i].pc) && !Enabled(s, i)
    requires s.procs[i].run != RUNNABLE
    ensures 0 <= s.lk < |s.procs| && Busy(s.procs[s.lk].pc)
  {
    hide LocksOk, Waiting, Pending, Owner, Has;
    assert ProcOk(s, i);
    LocksAt(s, i, i);
  }
}
