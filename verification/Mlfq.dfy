/** The multi-level feedback queue of kernel/trap.c and kernel/proc.c. */
module Mlfq {
  const NPROC: nat := 64
  const NEVER: int := 1000000

  datatype Run = UNUSED | SLEEPING | RUNNABLE | RUNNING | ZOMBIE

  datatype Proc = Proc(state: Run, queue: nat, arrival: int, ticks: nat)

  // Timer ticks that a process may use in a queue.
  function Slice(queue: nat): nat {
    if queue == 0 then 1 else if queue == 1 then 4 else if queue == 2 then 8 else 16
  }

  // 1 << n
  function Shift(n: nat): nat { if n == 0 then 1 else 2 * Shift(n - 1) }

  lemma ShiftValues()
    ensures Shift(2) == 4 && Shift(3) == 8 && Shift(4) == 16
  {
    assert Shift(1) == 2;
  }

  // The process runs, or could.
  predicate Live(p: Proc) { p.state == RUNNABLE || p.state == RUNNING }

  // How many of the first n processes do.
  function Lives(proc: seq<Proc>, n: nat): (k: nat)
    requires n <= |proc|
  {
    if n == 0 then 0 else Lives(proc, n - 1) + if Live(proc[n - 1]) then 1 else 0
  }

  // Process i after a boost at the given time.
  function Boosted(proc: seq<Proc>, i: nat, now: int): Proc
    requires i < |proc|
  {
    if Live(proc[i]) then proc[i].(queue := 0, ticks := 0, arrival := now + Lives(proc, i)) else proc[i]
  }

  // A boost queues the processes up in table order, at times that are not over yet before it.
  lemma {:induction false} BoostOrder(proc: seq<Proc>, i: nat, j: nat, now: int)
    requires i < j <= |proc| && Live(proc[i])
    ensures now <= Boosted(proc, i, now).arrival < now + Lives(proc, j)
    ensures j < |proc| && Live(proc[j]) ==> Boosted(proc, i, now).arrival < Boosted(proc, j, now).arrival
    decreases j
  {
    if j > i + 1 { BoostOrder(proc, i, j - 1, now); }
  }

  predicate Fits(p: Proc) { p.queue <= 3 && p.ticks < Slice(p.queue) }

  // A timer tick of the running process, without a boost.
  function Tick(p: Proc, now: int): Proc {
    if p.ticks + 1 < Slice(p.queue) then p.(ticks := p.ticks + 1, state := RUNNABLE)
    else p.(ticks := 0, arrival := now, state := RUNNABLE, queue := if p.queue < 3 then p.queue + 1 else 3)
  }

  // The same process after k such ticks.
  function Ticks(p: Proc, now: int, k: nat): Proc {
    if k == 0 then p else Tick(Ticks(p, now, k - 1), now)
  }

  // A fresh process leaves queue 0 after 1 tick, queue 1 after 5 and queue 2 after 13.
  lemma {:induction false} Demotion(p: Proc, now: int, k: nat)
    requires p.queue == 0 && p.ticks == 0
    ensures Fits(Ticks(p, now, k))
    ensures Ticks(p, now, k).queue == if k < 1 then 0 else if k < 5 then 1 else if k < 13 then 2 else 3
    ensures 1 <= k < 5 ==> Ticks(p, now, k).ticks == k - 1
    ensures 5 <= k < 13 ==> Ticks(p, now, k).ticks == k - 5
  {
    if k > 0 { Demotion(p, now, k - 1); }
  }

  // a is scheduled before b.
  predicate Before(a: Proc, b: Proc) { a.queue < b.queue || (a.queue == b.queue && a.arrival <= b.arrival) }

  predicate Candidate(p: Proc) { p.state == RUNNABLE && p.arrival < 1000000 }

  // l holds the runnable processes of queue q among the first n, in table order.
  ghost predicate Lists(proc: seq<Proc>, l: seq<nat>, q: nat, n: nat)
    requires |proc| == NPROC && n <= NPROC
  {
    && (forall j :: 0 <= j < |l| ==> l[j] < n && proc[l[j]].state == RUNNABLE && proc[l[j]].queue == q)
    && (forall x :: 0 <= x < n && proc[x].state == RUNNABLE && proc[x].queue == q ==> x in l)
    && (forall j, k :: 0 <= j < k < |l| ==> l[j] < l[k])
  }

  lemma ListsNext(proc: seq<Proc>, l: seq<nat>, q: nat, n: nat)
    requires |proc| == NPROC && n < NPROC && Lists(proc, l, q, n)
    ensures Lists(proc, if proc[n].state == RUNNABLE && proc[n].queue == q then l + [n] else l, q, n + 1)
  {
  }

  class Machine {
    var proc: seq<Proc>
    var sysTime: int

    predicate Valid()
      reads this
    {
      |proc| == NPROC && forall i :: 0 <= i < NPROC ==> Fits(proc[i])
    }

    constructor ()
      ensures Valid() && forall i :: 0 <= i < NPROC ==> proc[i].state == UNUSED
    {
      proc, sysTime := seq(NPROC, _ => Proc(UNUSED, 0, 0, 0)), 0;
    }

    // Every process that could run goes back to queue 0, in table order.
    method Boost()
      requires Valid()
      modifies this
      ensures Valid() && sysTime == old(sysTime) + Lives(old(proc), NPROC)
      ensures forall i :: 0 <= i < NPROC ==> proc[i] == Boosted(old(proc), i, old(sysTime))
    {
      for i := 0 to NPROC
        invariant |proc| == NPROC && sysTime == old(sysTime) + Lives(old(proc), i)
        invariant forall j :: i <= j < NPROC ==> proc[j] == old(proc)[j]
        invariant forall j :: 0 <= j < i ==> proc[j] == Boosted(old(proc), j, old(sysTime))
      {
        if proc[i].state == RUNNABLE || proc[i].state == RUNNING {
          proc := proc[i := proc[i].(arrival := sysTime, ticks := 0, queue := 0)];
          sysTime := sysTime + 1;
        }
      }
    }

    // usertrap's part for the process `me`: which = 2 is a timer interrupt, 1 another device.
    // The boost comes first; the process gives up the CPU if it was an interrupt.
    method Trap(me: nat, ticks: nat, which: nat)
      requires Valid() && me < NPROC && proc[me].state == RUNNING
      modifies this
      ensures Valid()
      // A boost: all that can run queues up anew in queue 0, in table order and, after a device
      // interrupt, with the running process at the end; other processes are as before.
      ensures ticks % 48 == 0 ==> sysTime == old(sysTime) + Lives(old(proc), NPROC) + if which == 1 then 1 else 0
      ensures ticks % 48 == 0 ==> forall i :: 0 <= i < NPROC && i != me ==> proc[i] == Boosted(old(proc), i, old(sysTime))
      ensures ticks % 48 == 0 ==>
                proc[me] == old(proc)[me].(queue := 0, ticks := 0, arrival := old(sysTime) + Lives(old(proc), if which == 1 then NPROC else me),
                                           state := if which == 1 || which == 2 then RUNNABLE else RUNNING)
      ensures ticks % 48 == 0 ==> forall i :: 0 <= i < NPROC && Live(proc[i]) ==> proc[i].queue == 0 && proc[i].ticks == 0
      // No boost: only the running process changes.
      ensures ticks % 48 != 0 && which == 2 ==>
                && proc == old(proc)[me := Tick(old(proc)[me], old(sysTime))]
                && sysTime == old(sysTime) + if proc[me].ticks == 0 then 1 else 0
      ensures ticks % 48 != 0 && which == 1 ==>
                && proc == old(proc)[me := old(proc)[me].(arrival := old(sysTime), ticks := 0, state := RUNNABLE)]
                && sysTime == old(sysTime) + 1
      ensures ticks % 48 != 0 && which != 1 && which != 2 ==> proc == old(proc) && sysTime == old(sysTime)
    {
      ShiftValues();
      var boosted := ticks % 48 == 0;
      if boosted {
        Boost();
      }
      if which == 2 {
        if !boosted {
          var p := proc[me];
          p := p.(ticks := p.ticks + 1);
          if p.queue == 0 {
            if p.ticks == 1 {
              p := p.(ticks := 0, arrival := sysTime, state := RUNNABLE, queue := p.queue + 1);
              sysTime := sysTime + 1;
            }
          } else if p.ticks == Shift(p.queue + 1) {
            p := p.(ticks := 0, arrival := sysTime, state := RUNNABLE);
            sysTime := sysTime + 1;
            if p.queue < 3 {
              p := p.(queue := p.queue + 1);
            }
          }
          proc := proc[me := p];
        }
        proc := proc[me := proc[me].(state := RUNNABLE)];
      } else if which == 1 {
        proc := proc[me := proc[me].(arrival := sysTime, ticks := 0)];
        sysTime := sysTime + 1;
        proc := proc[me := proc[me].(state := RUNNABLE)];
      }
    }

    // The process that the scheduler runs next: the first in table order of those that come
    // before all others, or none if every runnable process arrived at NEVER or later.
    method Pick() returns (found: bool, best: nat)
      requires Valid()
      ensures found <==> exists i :: 0 <= i < NPROC && Candidate(proc[i])
      ensures found ==> best < NPROC && Candidate(proc[best])
      ensures found ==> forall i :: 0 <= i < NPROC && Candidate(proc[i]) ==>
                          Before(proc[best], proc[i]) && (Before(proc[i], proc[best]) ==> best <= i)
    {
      hide Lists, Fits;
      var queues: seq<seq<nat>> := [[], [], [], []];
      EmptyLists(proc);
      for i := 0 to NPROC
        invariant |queues| == 4 && forall q :: 0 <= q < 4 ==> Lists(proc, queues[q], q, i)
      {
        QueueOk(proc, i);
        forall q | 0 <= q < 4
          ensures Lists(proc, if proc[i].state == RUNNABLE && proc[i].queue == q then queues[q] + [i] else queues[q], q, i + 1)
        {
          ListsNext(proc, queues[q], q, i);
        }
        if proc[i].state == RUNNABLE {
          queues := queues[proc[i].queue := queues[proc[i].queue] + [i]];
        }
      }
      found, best := false, 0;
      for q := 0 to 4
        invariant !found && forall x :: 0 <= x < NPROC && Candidate(proc[x]) ==> proc[x].queue >= q
      {
        found, best := PickFrom(queues[q], q);
        if found {
          break;
        }
      }
      forall x | 0 <= x < NPROC ensures proc[x].queue <= 3 { QueueOk(proc, x); }
    }

    // The inner loop of the scheduler.
    method PickFrom(l: seq<nat>, q: nat) returns (found: bool, best: nat)
      requires Valid() && Lists(proc, l, q, NPROC)
      ensures found ==> best < NPROC && Candidate(proc[best]) && proc[best].queue == q
      ensures found ==> forall x :: 0 <= x < NPROC && Candidate(proc[x]) && proc[x].queue == q ==>
                          proc[best].arrival <= proc[x].arrival && (proc[x].arrival == proc[best].arrival ==> best <= x)
      ensures !found ==> forall x :: 0 <= x < NPROC && Candidate(proc[x]) ==> proc[x].queue != q
    {
      found, best := false, 0;
      var least := NEVER;
      for j := 0 to |l|
        invariant found ==> best in l[..j] && proc[best].arrival == least < NEVER
        invariant !found ==> least == NEVER
        invariant forall k :: 0 <= k < j ==> proc[l[k]].arrival >= least
        invariant found ==> forall k :: 0 <= k < j && proc[l[k]].arrival == least ==> best <= l[k]
      {
        if least > proc[l[j]].arrival {
          least := proc[l[j]].arrival;
          found, best := true, l[j];
        }
      }
      forall x | 0 <= x < NPROC && Candidate(proc[x]) && proc[x].queue == q
        ensures found && proc[best].arrival <= proc[x].arrival && (proc[x].arrival == proc[best].arrival ==> best <= x)
      {
        assert x in l;
      }
    }
  }


  lemma EmptyLists(proc: seq<Proc>)
    requires |proc| == NPROC
    ensures forall q :: 0 <= q < 4 ==> Lists(proc, [], q, 0)
  {
  }

  lemma QueueOk(proc: seq<Proc>, i: nat)
    requires |proc| == NPROC && i < NPROC && forall x :: 0 <= x < NPROC ==> Fits(proc[x])
    ensures proc[i].queue <= 3
  {
    assert Fits(proc[i]);
  }
}
