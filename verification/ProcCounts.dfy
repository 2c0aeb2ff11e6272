/** What the numbers in the process table mean: counts of the events of a run. */
module ProcCounts {
  import opened Basics
  import opened ProcTable
  import opened ProcSteps
  import opened ProcHistory

  /** The timer interrupts among the first k events. */
  ghost function Ticks(events: seq<Event>, k: nat): nat
    requires k <= |events|
  {
    if k == 0 then 0 else Ticks(events, k - 1) + if events[k - 1].Tick? then 1 else 0
  }

  /** Those from the b-th event on in whose state slot i had the CPU. */
  ghost function RunningTicks(states: seq<Sys>, events: seq<Event>, i: nat, b: nat, k: nat): nat
    requires b <= k <= |events| < |states|
  {
    if k == b then 0
    else RunningTicks(states, events, i, b, k - 1) +
         if events[k - 1].Tick? && states[k - 1].current == i then 1 else 0
  }

  /** And those in which it had not. */
  ghost function IdleTicks(states: seq<Sys>, events: seq<Event>, i: nat, b: nat, k: nat): nat
    requires b <= k <= |events| < |states|
  {
    if k == b then 0
    else IdleTicks(states, events, i, b, k - 1) +
         if events[k - 1].Tick? && states[k - 1].current != i then 1 else 0
  }

  /** The state from which on slot i has been in use: the one after the fork that filled it. */
  ghost function Since(states: seq<Sys>, i: nat, k: nat): (b: nat)
    requires k < |states| && i < NPROC
    ensures b <= k
  {
    if k == 0 || states[k - 1].procs[i].state == Unused then k else Since(states, i, k - 1)
  }

  /** The state from which on it has been a zombie. */
  ghost function Ended(states: seq<Sys>, i: nat, k: nat): (b: nat)
    requires k < |states| && i < NPROC
    ensures b <= k
  {
    if k == 0 || states[k - 1].procs[i].state != Zombie then k else Ended(states, i, k - 1)
  }

  lemma OneStep(policy: Policy, states: seq<Sys>, events: seq<Event>, k: nat, i: nat)
    requires Run(policy, states, events) && k < |events| && i < NPROC
    ensures Inv(policy, states[k]) && Follows(policy, states[k], events[k], states[k + 1])
    ensures Lives(states[k], events[k], states[k + 1].procs[i], i)
    ensures Numbered(policy, states[k], events[k], states[k + 1].procs[i], i)
    ensures states[k + 1].ticks == states[k].ticks + (if events[k].Tick? then 1 else 0)
    ensures states[k + 1].nextpid
            == states[k].nextpid + (if events[k].Fork? && SomeFree(states[k]) then 1 else 0)
  {
    hide Inv, Lives, Numbered;
    RunKeeps(policy, states, events, k);
    assert Follows(policy, states[k], events[k], states[k + 1]);
    hide Follows;
    LifeCycle(policy, states[k], events[k], states[k + 1], i);
    Numbers(policy, states[k], events[k], states[k + 1], i);
  }

  /** ticks is the number of timer interrupts. */
  lemma {:induction false} TicksCounted(policy: Policy, states: seq<Sys>, events: seq<Event>, k: nat)
    requires Run(policy, states, events) && k < |states|
    ensures states[k].ticks == Ticks(events, k)
  {
    hide Inv, Lives, Numbered, Follows;
    if k > 0 {
      TicksCounted(policy, states, events, k - 1);
      OneStep(policy, states, events, k - 1, 0);
      hide Run;
    }
  }

  /** A process has run for the timer interrupts in whose state it had the CPU since its fork, and it was
      created at the tick of its fork. */
  lemma {:induction false} RunningTime(policy: Policy, states: seq<Sys>, events: seq<Event>, k: nat, i: nat)
    requires Run(policy, states, events) && k < |states| && i < NPROC && states[k].procs[i].state != Unused
    ensures var b := Since(states, i, k);
            && states[k].procs[i].rtime == RunningTicks(states, events, i, b, k)
            && states[k].procs[i].ctime == Ticks(events, b)
  {
    hide Inv, Lives, Follows;
    if k > 0 {
      OneStep(policy, states, events, k - 1, i);
      TicksCounted(policy, states, events, k - 1);
      if states[k - 1].procs[i].state != Unused {
        RunningTime(policy, states, events, k - 1, i);
      } else {
        BornNow(policy, states[k - 1], events[k - 1], states[k], i);
      }
    }
  }

  lemma BornNow(policy: Policy, s: Sys, e: Event, r: Sys, i: nat)
    requires i < NPROC && Lives(s, e, r.procs[i], i) && s.procs[i].state == Unused && r.procs[i].state != Unused
    ensures Fills(s, e, i) && e.memory
  {
  }

  lemma {:induction false} TicksSplit(states: seq<Sys>, events: seq<Event>, i: nat, b: nat, k: nat)
    requires b <= k <= |events| < |states|
    ensures Ticks(events, k)
            == Ticks(events, b) + RunningTicks(states, events, i, b, k) + IdleTicks(states, events, i, b, k)
  {
    if b < k {
      TicksSplit(states, events, i, b, k - 1);
    }
  }

  /** A zombie ended at the tick of its end, and its numbers are those of then. */
  lemma {:induction false} EndTime(policy: Policy, states: seq<Sys>, events: seq<Event>, k: nat, i: nat)
    requires Run(policy, states, events) && k < |states| && i < NPROC && states[k].procs[i].state == Zombie
    ensures var m := Ended(states, i, k);
            && 0 < m && Since(states, i, m) == Since(states, i, k) <= m
            && states[k].procs[i].etime == Ticks(events, m)
            && RunningTicks(states, events, i, Since(states, i, k), k)
               == RunningTicks(states, events, i, Since(states, i, k), m)
  {
    hide Inv, Follows;
    if k > 0 {
      OneStep(policy, states, events, k - 1, i);
      TicksCounted(policy, states, events, k - 1);
      NotCurrent(policy, states, events, k - 1, i);
      if states[k - 1].procs[i].state == Zombie {
        EndTime(policy, states, events, k - 1, i);
      }
    }
  }

  lemma NotCurrent(policy: Policy, states: seq<Sys>, events: seq<Event>, k: nat, i: nat)
    requires Run(policy, states, events) && k < |states| && i < NPROC
    ensures states[k].current == i <==> states[k].procs[i].state == Running
  {
    RunKeeps(policy, states, events, k);
    assert ProcOk(policy, states[k], i);
  }

  /** What wait2 reports of a zombie: rtime is the number of ticks between its fork and its end at which it
      had the CPU, and wtime the number of those at which it had not. */
  lemma WaitReports(policy: Policy, states: seq<Sys>, events: seq<Event>, k: nat, z: nat)
    requires Run(policy, states, events) && k < |states| && z < NPROC && states[k].procs[z].state == Zombie
    ensures var b, m, p := Since(states, z, k), Ended(states, z, k), states[k].procs[z];
            && b <= m
            && p.rtime == RunningTicks(states, events, z, b, m)
            && p.etime - p.ctime - p.rtime == IdleTicks(states, events, z, b, m)
  {
    RunningTime(policy, states, events, k, z);
    EndTime(policy, states, events, k, z);
    TicksSplit(states, events, z, Since(states, z, k), Ended(states, z, k));
    hide Run;
  }

  // ----- pids -----

  /** The forks among the first k events that found a free slot. */
  ghost function Forks(states: seq<Sys>, events: seq<Event>, k: nat): nat
    requires k <= |events| < |states|
  {
    if k == 0 then 0
    else Forks(states, events, k - 1) +
         if events[k - 1].Fork? && SomeFree(states[k - 1]) then 1 else 0
  }

  predicate InUse(s: Sys, i: nat)
    requires i < NPROC
  {
    s.procs[i].state != Unused
  }

  /** No two processes have the same pid: init has 1, and each fork uses the next. */
  lemma {:induction false} PidsDistinct(policy: Policy, states: seq<Sys>, events: seq<Event>, k: nat)
    requires Run(policy, states, events) && k < |states|
    ensures states[k].nextpid == 2 + Forks(states, events, k)
    ensures forall i :: 0 <= i < NPROC && InUse(states[k], i) ==>
              1 <= states[k].procs[i].pid < states[k].nextpid
    ensures forall i, j :: 0 <= i < j < NPROC && InUse(states[k], i) && InUse(states[k], j) ==>
              states[k].procs[i].pid != states[k].procs[j].pid
  {
    hide Inv, Follows, Numbered, Lives;
    if k > 0 {
      PidsDistinct(policy, states, events, k - 1);
      OneStep(policy, states, events, k - 1, 0);
      forall i | 0 <= i < NPROC && InUse(states[k], i)
        ensures PidKept(states[k - 1], events[k - 1], states[k], i)
      {
        OneStep(policy, states, events, k - 1, i);
        PidStep(policy, states[k - 1], events[k - 1], states[k], i);
      }
      hide Run;
      forall i, j | 0 <= i < j < NPROC && InUse(states[k], i) && InUse(states[k], j)
        ensures states[k].procs[i].pid != states[k].procs[j].pid
      {
        assert PidKept(states[k - 1], events[k - 1], states[k], i);
        assert PidKept(states[k - 1], events[k - 1], states[k], j);
      }
    }
  }

  predicate PidKept(s: Sys, e: Event, r: Sys, i: nat)
    requires i < NPROC
  {
    if s.procs[i].state == Unused then Fills(s, e, i) && r.procs[i].pid == s.nextpid
    else r.procs[i].pid == s.procs[i].pid
  }

  lemma PidStep(policy: Policy, s: Sys, e: Event, r: Sys, i: nat)
    requires i < NPROC && Lives(s, e, r.procs[i], i) && Numbered(policy, s, e, r.procs[i], i)
    requires r.procs[i].state != Unused
    ensures PidKept(s, e, r, i)
  {
  }

  // ----- kill -----

  /** The k-th event frees slot i. */
  ghost predicate Freed(states: seq<Sys>, i: nat, k: nat)
    requires k + 1 < |states| && i < NPROC
  {
    states[k].procs[i].state != Unused && states[k + 1].procs[i].state == Unused
  }

  /** A slot is marked as killed exactly if a kill has found it since it was last freed. */
  lemma {:induction false} KilledSince(policy: Policy, states: seq<Sys>, events: seq<Event>, k: nat, i: nat)
    requires Run(policy, states, events) && k < |states| && i < NPROC
    ensures states[k].procs[i].killed <==>
              exists j :: 0 <= j < k && Strikes(states[j], events[j], i)
                          && forall m :: j < m < k ==> !Freed(states, i, m)
  {
    hide Inv, Follows, Lives;
    if k > 0 {
      KilledSince(policy, states, events, k - 1, i);
      OneStep(policy, states, events, k - 1, i);
      KilledStep(policy, states[k - 1], events[k - 1], states[k], i);
      hide Numbered, Run, Strikes;
      var s, e := states[k - 1], events[k - 1];
      if states[k].procs[i].killed && !Strikes(s, e, i) {
        var j :| 0 <= j < k - 1 && Strikes(states[j], events[j], i)
                 && forall m :: j < m < k - 1 ==> !Freed(states, i, m);
        assert !Freed(states, i, k - 1);
      }
      if !states[k].procs[i].killed {
        forall j | 0 <= j < k && Strikes(states[j], events[j], i) ensures exists m :: j < m < k && Freed(states, i, m) {
          if j < k - 1 && !exists m :: j < m < k - 1 && Freed(states, i, m) {
            assert s.procs[i].killed;
            assert Freed(states, i, k - 1);
          }
        }
      }
    }
  }

  lemma KilledStep(policy: Policy, s: Sys, e: Event, r: Sys, i: nat)
    requires i < NPROC && Numbered(policy, s, e, r.procs[i], i)
    requires Lives(s, e, r.procs[i], i)
    ensures r.procs[i].killed <==>
              (s.procs[i].killed || Strikes(s, e, i)) && !(s.procs[i].state != Unused && r.procs[i].state == Unused)
    ensures Strikes(s, e, i) ==> r.procs[i].killed
  {
  }

  /** So a process may be killed before it is born: kill(0) finds a slot that is free, and the child that is
      forked into it is marked. */
  lemma KilledBeforeBirth(policy: Policy)
    returns (states: seq<Sys>)
    ensures Run(policy, states, [Dispatch(0), Kill(0), Fork(true)])
    ensures states[3].procs[1].state == Runnable && states[3].procs[1].pid == 2 && states[3].procs[1].killed
  {
    var s0 := Boot();
    var s1 := Dispatched(s0, 0);
    FirstAt(s1.procs, (p: Proc) => p.pid == 0, 1);
    var s2 := Killed(s1, 0);
    FirstAt(s2.procs, (p: Proc) => p.state == Unused, 1);
    var s3 := Forked(policy, s2, true);
    states := [s0, s1, s2, s3];
  }

  // ----- the class of 3Q -----

  /** How often slot i has called nice from the b-th event on. */
  ghost function Nices(states: seq<Sys>, events: seq<Event>, i: nat, b: nat, k: nat): nat
    requires b <= k <= |events| < |states|
  {
    if k == b then 0
    else Nices(states, events, i, b, k - 1) + if events[k - 1].Nice? && states[k - 1].current == i then 1 else 0
  }

  /** A process begins as HIGH, the first nice makes it MEDIUM and the second LOW, and nothing else changes
      its class; init has none. */
  lemma {:induction false} ClassByNice(states: seq<Sys>, events: seq<Event>, k: nat, i: nat)
    requires Run(ThreeQ, states, events) && k < |states| && i < NPROC
    requires states[k].procs[i].state != Unused && states[k].procs[i].state != Zombie
    ensures states[k].procs[i].priority
            == if i == 0 then 0 else 3 - Min(2, Nices(states, events, i, Since(states, i, k), k))
  {
    hide Inv, Follows, Lives;
    if k > 0 {
      OneStep(ThreeQ, states, events, k - 1, i);
      NeverFree(ThreeQ, states, events, k - 1);
      NotCurrent(ThreeQ, states, events, k - 1, i);
      StaysEnded(states[k - 1], events[k - 1], states[k], i);
      if states[k - 1].procs[i].state != Unused {
        ClassByNice(states, events, k - 1, i);
      }
    } else {
      assert i == 0;
    }
  }

  lemma NeverFree(policy: Policy, states: seq<Sys>, events: seq<Event>, k: nat)
    requires Run(policy, states, events) && k < |states|
    ensures states[k].procs[0].state != Unused && states[k].procs[0].state != Zombie
  {
    RunKeeps(policy, states, events, k);
  }

  lemma StaysEnded(s: Sys, e: Event, r: Sys, i: nat)
    requires i < NPROC && Lives(s, e, r.procs[i], i) && r.procs[i].state != Unused && r.procs[i].state != Zombie
    ensures s.procs[i].state != Zombie && !(Ends(s, e) && i == s.current && s.procs[i].state == Running)
  {
  }

  // ----- quanta -----

  /** While a process has the CPU each tick takes one of its quanta. */
  lemma {:induction false} QuantaSpent(policy: Policy, states: seq<Sys>, events: seq<Event>, i: nat, j: nat, k: nat)
    requires Run(policy, states, events) && j <= k < |states| && i < NPROC
    requires forall m :: j <= m <= k ==> states[m].current == i
    ensures states[k].procs[i].quanta == states[j].procs[i].quanta - RunningTicks(states, events, i, j, k)
  {
    hide Inv, Follows, Lives;
    if j < k {
      QuantaSpent(policy, states, events, i, j, k - 1);
      OneStep(policy, states, events, k - 1, i);
      NotCurrent(policy, states, events, k - 1, i);
      NotCurrent(policy, states, events, k, i);
      NoScan(policy, states[k - 1], events[k - 1], states[k]);
    }
  }

  lemma NoScan(policy: Policy, s: Sys, e: Event, r: Sys)
    requires Follows(policy, s, e, r) && s.current < NPROC
    ensures !e.Scan?
  {
  }

  /** A process that has five quanta and is not killed keeps the CPU for four ticks and gives it up at the
      fifth. */
  lemma FiveTicks(policy: Policy, states: seq<Sys>, events: seq<Event>, i: nat, j: nat, k: nat)
    requires Run(policy, states, events) && j <= k < |events| && i < NPROC
    requires forall m :: j <= m <= k ==> states[m].current == i
    requires states[j].procs[i].quanta == 5 && events[k].Tick? && !Ends(states[k], events[k])
    ensures RunningTicks(states, events, i, j, k) <= 4
    ensures states[k + 1].procs[i].state == if RunningTicks(states, events, i, j, k) == 4 then Runnable else Running
  {
    QuantaSpent(policy, states, events, i, j, k);
    OneStep(policy, states, events, k, i);
    NotCurrent(policy, states, events, k, i);
    if j < k {
      LastTick(policy, states, events, i, j, k);
    }
    hide Inv, Follows, Numbered;
  }

  lemma {:induction false} LastTick(policy: Policy, states: seq<Sys>, events: seq<Event>, i: nat, j: nat, k: nat)
    requires Run(policy, states, events) && j <= k < |states| && i < NPROC
    requires forall m :: j <= m <= k ==> states[m].current == i
    requires states[j].procs[i].quanta == 5
    ensures states[k].procs[i].quanta >= 1
  {
    hide Inv, Follows;
    if j < k {
      LastTick(policy, states, events, i, j, k - 1);
      OneStep(policy, states, events, k - 1, i);
      NotCurrent(policy, states, events, k - 1, i);
      NotCurrent(policy, states, events, k, i);
      NoScan(policy, states[k - 1], events[k - 1], states[k]);
    }
  }
}
