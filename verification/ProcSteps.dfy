/** Every operation on the process table keeps its invariant, so every state of every run has it. */
module ProcSteps {
  import opened ProcTable

  /** No change to who is whose child, who is alive, who is a zombie, and nobody newly waits. */
  ghost predicate Gentle(a: Proc, b: Proc, i: nat) {
    && b.parent == a.parent && (Used(b) <==> Used(a)) && (b.state == Zombie <==> a.state == Zombie)
    && (Waiting(b, i) ==> Waiting(a, i))
  }

  ghost predicate Family(s: Sys) {
    && (forall i :: 0 <= i < NPROC ==> Parented(s, i))
    && (forall i :: 0 <= i < NPROC ==> Noticed(s, i))
    && Used(s.procs[INIT]) && s.procs[INIT].parent == NPROC
  }

  lemma GentleKeeps(s: Sys, r: Sys)
    requires Family(s)
    requires forall i :: 0 <= i < NPROC ==> Gentle(s.procs[i], r.procs[i], i)
    ensures Family(r)
  {
    forall i | 0 <= i < NPROC ensures Parented(r, i) && Noticed(r, i) {
      assert Parented(s, i) && Noticed(s, i) && Gentle(s.procs[i], r.procs[i], i);
      if s.procs[i].parent < NPROC {
        assert Gentle(s.procs[s.procs[i].parent], r.procs[s.procs[i].parent], s.procs[i].parent);
      }
    }
    assert Gentle(s.procs[INIT], r.procs[INIT], INIT);
  }

  lemma WokenKeeps(policy: Policy, s: Sys, c: Chan)
    requires Inv(policy, s)
    ensures Inv(policy, WokenUp(s, c))
  {
    var r := WokenUp(s, c);
    forall i | 0 <= i < NPROC ensures Gentle(s.procs[i], r.procs[i], i) && ProcOk(policy, r, i) {
      assert ProcOk(policy, s, i);
    }
    GentleKeeps(s, r);
  }

  /** The current process goes to another live state without waiting for a child. */
  lemma LeftKeeps(policy: Policy, s: Sys, p: Proc)
    requires Inv(policy, s) && s.current < NPROC
    requires Gentle(s.procs[s.current], p, s.current) && p.state != Running && p.state != Embryo && TimesOk(p, s.ticks)
    requires policy == ThreeQ && Used(p) ==> 0 <= p.priority <= HIGH
    requires p.state == Sleeping && p.chan.Of? ==> p.chan.p == s.current
    ensures Inv(policy, Left(s, p))
  {
    var r := Left(s, p);
    assert ProcOk(policy, s, s.current);
    forall i | 0 <= i < NPROC ensures Gentle(s.procs[i], r.procs[i], i) && ProcOk(policy, r, i) {
      assert ProcOk(policy, s, i);
    }
    GentleKeeps(s, r);
  }

  lemma YieldedKeeps(policy: Policy, s: Sys)
    requires Inv(policy, s) && s.current < NPROC
    ensures Inv(policy, Yielded(policy, s))
  {
    assert ProcOk(policy, s, s.current);
    var p := s.procs[s.current];
    var q := if policy == FRR || (policy == ThreeQ && p.priority == MEDIUM) then s.ticks else p.qvalue;
    LeftKeeps(policy, s, p.(qvalue := q, state := Runnable));
  }

  lemma SleptKeeps(policy: Policy, s: Sys, c: Chan)
    requires Inv(policy, s) && s.current < NPROC
    requires c.Of? ==> c.p == s.current && forall i :: 0 <= i < NPROC && s.procs[i].parent == s.current ==>
               s.procs[i].state != Zombie
    ensures Inv(policy, Slept(s, c))
  {
    assert ProcOk(policy, s, s.current);
    var r := Slept(s, c);
    forall i | 0 <= i < NPROC ensures ProcOk(policy, r, i) && Parented(r, i) && Noticed(r, i) {
      assert ProcOk(policy, s, i) && Parented(s, i) && Noticed(s, i);
    }
  }

  lemma WaitedKeeps(policy: Policy, s: Sys)
    requires Inv(policy, s) && s.current < NPROC
    ensures Inv(policy, Waited(s))
  {
    var z := FirstZombie(s, s.current);
    if z < NPROC {
      ReapedKeeps(policy, s, z);
    } else if FirstChild(s, s.current) < NPROC && !s.procs[s.current].killed {
      forall i | 0 <= i < NPROC && s.procs[i].parent == s.current ensures s.procs[i].state != Zombie {
        assert !((p: Proc) => p.parent == s.current && p.state == Zombie)(s.procs[i]);
      }
      SleptKeeps(policy, s, Of(s.current));
    }
  }

  lemma ReapedKeeps(policy: Policy, s: Sys, z: nat)
    requires Inv(policy, s) && z < NPROC && s.procs[z].state == Zombie
    ensures Inv(policy, Reaped(s, z))
  {
    var r := Reaped(s, z);
    assert ProcOk(policy, s, z);
    forall i | 0 <= i < NPROC ensures ProcOk(policy, r, i) && Parented(r, i) && Noticed(r, i) {
      assert ProcOk(policy, s, i) && Parented(s, i) && Noticed(s, i);
    }
  }

  lemma ForkedKeeps(policy: Policy, s: Sys, memory: bool)
    requires Inv(policy, s) && s.current < NPROC
    ensures Inv(policy, Forked(policy, s, memory))
  {
    var r := Forked(policy, s, memory);
    var z := First(s.procs, (p: Proc) => p.state == Unused, 0);
    if z < NPROC {
      assert ProcOk(policy, s, s.current) && ProcOk(policy, s, z);
      forall i | 0 <= i < NPROC ensures ProcOk(policy, r, i) && Parented(r, i) && Noticed(r, i) {
        assert ProcOk(policy, s, i) && Parented(s, i) && Noticed(s, i);
      }
    }
  }

  lemma ExitedKeeps(policy: Policy, s: Sys)
    requires Inv(policy, s) && s.current < NPROC && s.current != INIT
    ensures Inv(policy, Exited(s))
  {
    var r := Exited(s);
    var me := s.current;
    assert ProcOk(policy, s, me) && Parented(s, me);
    forall i | 0 <= i < NPROC ensures ProcOk(policy, r, i) && Parented(r, i) && Noticed(r, i) {
      ExitedAt(policy, s, i);
    }
    ExitedIs(s, INIT);
  }

  /** What exit does to slot i. */
  lemma ExitedIs(s: Sys, i: nat)
    requires s.current < NPROC && s.current != INIT && i < NPROC
    ensures var p, r := s.procs[i], Exited(s).procs[i];
            if i == s.current then r.state == Zombie && r.etime == s.ticks && r.rtime == p.rtime && r.ctime == p.ctime
                                && r.quanta == p.quanta && r.qvalue == p.qvalue
                                && r.parent == (if p.parent == i then INIT else p.parent)
            else
              && r == p.(parent := if p.parent == s.current then INIT else p.parent, state := r.state)
              && (r.state == p.state || (p.state == Sleeping && r.state == Runnable))
              && (i == s.procs[s.current].parent ==> !Waiting(r, i))
              && (i == INIT && HasZombie(s.procs, s.current) ==> !Waiting(r, i))
  {
    ToldIs(s.procs, s.current, i);
    hide HasZombie, Told;
  }

  lemma ToldIs(procs: Procs, me: nat, i: nat)
    requires me < NPROC && i < NPROC
    ensures var p, r := procs[i], Told(procs, me)[i];
            && r == p.(state := r.state) && (r.state == p.state || (p.state == Sleeping && r.state == Runnable))
            && (i == procs[me].parent ==> !Waiting(r, i)) && (i == INIT && HasZombie(procs, me) ==> !Waiting(r, i))
  {
    hide HasZombie;
  }

  lemma ExitedAt(policy: Policy, s: Sys, i: nat)
    requires Inv(policy, s) && s.current < NPROC && s.current != INIT && i < NPROC
    ensures ProcOk(policy, Exited(s), i) && Parented(Exited(s), i) && Noticed(Exited(s), i)
  {
    var me := s.current;
    assert ProcOk(policy, s, me) && Parented(s, me) && ProcOk(policy, s, i) && Parented(s, i) && Noticed(s, i);
    ExitedIs(s, i);
    ExitedIs(s, INIT);
    if s.procs[i].parent < NPROC {
      ExitedIs(s, s.procs[i].parent);
      assert ProcOk(policy, s, s.procs[i].parent);
    }
    ZombieChild(s.procs, i, me);
    ExitedCurrent(s);
    hide HasZombie, Exited, TimesOk;
    assert ProcOk(policy, Exited(s), i) by {
      ExitedOk(policy, s, i);
    }
  }

  lemma ExitedCurrent(s: Sys)
    requires s.current < NPROC && s.current != INIT
    ensures Exited(s).current == NPROC && Exited(s).ticks == s.ticks
  {
  }

  lemma ExitedOk(policy: Policy, s: Sys, i: nat)
    requires s.current < NPROC && s.current != INIT && i < NPROC && ProcOk(policy, s, i) && ProcOk(policy, s, s.current)
    requires s.procs[INIT].parent == NPROC
    ensures ProcOk(policy, Exited(s), i)
  {
    ExitedIs(s, i);
    ExitedCurrent(s);
    hide Exited;
  }

  lemma ZombieChild(procs: Procs, i: nat, me: nat)
    requires i < NPROC
    ensures procs[i].parent == me && procs[i].state == Zombie ==> HasZombie(procs, me)
  {
  }

  lemma KilledKeeps(policy: Policy, s: Sys, pid: int)
    requires Inv(policy, s)
    ensures Inv(policy, Killed(s, pid))
  {
    var r := Killed(s, pid);
    forall i | 0 <= i < NPROC ensures Gentle(s.procs[i], r.procs[i], i) && ProcOk(policy, r, i) {
      assert ProcOk(policy, s, i);
    }
    GentleKeeps(s, r);
  }

  lemma NicedKeeps(policy: Policy, s: Sys)
    requires Inv(policy, s) && s.current < NPROC
    ensures Inv(policy, Niced(s))
  {
    var r := Niced(s);
    forall i | 0 <= i < NPROC ensures Gentle(s.procs[i], r.procs[i], i) && ProcOk(policy, r, i) {
      assert ProcOk(policy, s, i);
    }
    GentleKeeps(s, r);
  }

  lemma ScannedKeeps(policy: Policy, s: Sys, renewed: set<nat>, queue: map<nat, nat>)
    requires Inv(policy, s) && s.current == NPROC
    ensures Inv(policy, s.(procs := Scanned(s.procs, renewed, queue)))
  {
    var r := s.(procs := Scanned(s.procs, renewed, queue));
    forall i | 0 <= i < NPROC ensures Gentle(s.procs[i], r.procs[i], i) && ProcOk(policy, r, i) {
      assert ProcOk(policy, s, i);
    }
    GentleKeeps(s, r);
  }

  lemma DispatchedKeeps(policy: Policy, s: Sys, k: nat)
    requires Inv(policy, s) && s.current == NPROC && k < NPROC && s.procs[k].state == Runnable
    ensures Inv(policy, Dispatched(s, k))
  {
    var r := Dispatched(s, k);
    assert ProcOk(policy, s, k);
    forall i | 0 <= i < NPROC ensures Gentle(s.procs[i], r.procs[i], i) && ProcOk(policy, r, i) {
      assert ProcOk(policy, s, i);
    }
    GentleKeeps(s, r);
  }

  /** Between the tick and the yield quanta may be used up; all else holds. */
  ghost predicate NearlyInv(policy: Policy, s: Sys) {
    && (forall i :: 0 <= i < NPROC ==> ProcOk(policy, s, i))
    && Family(s) && s.current <= NPROC
    && (s.current < NPROC ==> 0 < s.charged <= QUANTA && s.charged + s.procs[s.current].quanta <= QUANTA)
  }

  lemma CountedKeeps(policy: Policy, s: Sys)
    requires Inv(policy, s)
    ensures NearlyInv(policy, Counted(s))
    ensures Counted(s).ticks == s.ticks + 1 && Counted(s).current == s.current
  {
    var r := Counted(s);
    forall i | 0 <= i < NPROC ensures Gentle(s.procs[i], r.procs[i], i) && ProcOk(policy, r, i) {
      assert ProcOk(policy, s, i);
    }
    GentleKeeps(s, r);
  }

  lemma TickedKeeps(policy: Policy, s: Sys, user: bool)
    requires Inv(policy, s)
    ensures Ticked(policy, s, user).Goes? ==> Inv(policy, Ticked(policy, s, user).s)
  {
    CountedKeeps(policy, s);
    var a := Counted(s);
    if a.current < NPROC {
      assert ProcOk(policy, a, a.current);
      // leaving the processor, what is left of the quanta does not matter
      var b := a.(charged := 0);
      forall i | 0 <= i < NPROC ensures ProcOk(policy, b, i) && Parented(b, i) && Noticed(b, i) {
        assert ProcOk(policy, a, i) && Parented(a, i) && Noticed(a, i);
      }
      if a.procs[a.current].killed && user {
        if a.current != INIT {
          ExitedKeeps(policy, b);
          assert Exited(a) == Exited(b);
        }
      } else if a.procs[a.current].quanta <= 0 {
        YieldedKeeps(policy, b);
        assert Yielded(policy, a) == Yielded(policy, b);
      }
    }
  }

  lemma StepKeeps(policy: Policy, s: Sys, e: Event)
    requires Inv(policy, s) && Enabled(s, e)
    ensures Step(policy, s, e).Goes? ==> Inv(policy, Step(policy, s, e).s)
  {
    hide Inv;
    InvCurrent(policy, s);
    match e
    case Fork(memory) => ForkedKeeps(policy, s, memory);
    case Exit => if s.current != INIT { ExitedKeeps(policy, s); }
    case Wait => WaitedKeeps(policy, s);
    case Sleep(c) => SleptKeeps(policy, s, Other(c));
    case Wakeup(c) => WokenKeeps(policy, s, Other(c));
    case Kill(pid) => KilledKeeps(policy, s, pid);
    case Yield => YieldedKeeps(policy, s);
    case Nice => NicedKeeps(policy, s);
    case Tick(user) => TickedKeeps(policy, s, user);
    case Scan(renewed, queue) => ScannedKeeps(policy, s, renewed, queue);
    case Dispatch(i) => DispatchedKeeps(policy, s, i);
  }

  lemma InvCurrent(policy: Policy, s: Sys)
    requires Inv(policy, s)
    ensures s.current <= NPROC
  {
  }

  lemma BootOk(policy: Policy)
    ensures Inv(policy, Boot())
  {
    var s := Boot();
    forall i | 0 <= i < NPROC ensures ProcOk(policy, s, i) && Parented(s, i) && Noticed(s, i) {
      assert s.procs[i] == if i == INIT then FREE.(state := Runnable, pid := 1) else FREE;
    }
  }

  /** Every state of every run, under every policy. */
  lemma {:induction false} RunKeeps(policy: Policy, states: seq<Sys>, events: seq<Event>, k: nat)
    requires Run(policy, states, events) && k < |states|
    ensures Inv(policy, states[k])
  {
    if k == 0 {
      BootOk(policy);
    } else {
      RunKeeps(policy, states, events, k - 1);
      assert Follows(policy, states[k - 1], events[k - 1], states[k - 1 + 1]);
      StepKeeps(policy, states[k - 1], events[k - 1]);
    }
  }

  // ----- what that comes to -----

  /** A process that is alive or a zombie, init apart, has a parent that is neither free nor a zombie,
      and if it is a zombie that parent is not asleep in wait. */
  lemma ExitWaitSafety(policy: Policy, states: seq<Sys>, events: seq<Event>, k: nat, i: nat)
    requires Run(policy, states, events) && k < |states| && i < NPROC
    ensures var p := states[k].procs[i];
            && (p.state != Unused && i != INIT ==>
                  && p.parent < NPROC && states[k].procs[p.parent].state != Unused
                  && states[k].procs[p.parent].state != Zombie && states[k].procs[p.parent].state != Embryo)
            && (p.state == Zombie ==> p.parent < NPROC && !Waiting(states[k].procs[p.parent], p.parent))
  {
    RunKeeps(policy, states, events, k);
    var s := states[k];
    assert Parented(s, i) && Noticed(s, i) && ProcOk(policy, s, i);
    if s.procs[i].parent < NPROC {
      assert ProcOk(policy, s, s.procs[i].parent);
    }
  }

  /** What wait2 reports of a zombie: rtime, and etime - ctime - rtime as wtime. */
  lemma WaitTimes(policy: Policy, states: seq<Sys>, events: seq<Event>, k: nat, i: nat)
    requires Run(policy, states, events) && k < |states| && i < NPROC && states[k].procs[i].state == Zombie
    ensures var p := states[k].procs[i]; var wtime := p.etime - p.ctime - p.rtime;
            0 <= p.rtime && 0 <= wtime && wtime + p.rtime == p.etime - p.ctime && p.etime <= states[k].ticks
  {
    RunKeeps(policy, states, events, k);
    assert ProcOk(policy, states[k], i);
  }

  /** No process has run longer than it has lived. */
  lemma RunTimes(policy: Policy, states: seq<Sys>, events: seq<Event>, k: nat, i: nat)
    requires Run(policy, states, events) && k < |states| && i < NPROC && Used(states[k].procs[i])
    ensures 0 <= states[k].procs[i].rtime <= states[k].ticks - states[k].procs[i].ctime
  {
    RunKeeps(policy, states, events, k);
    assert ProcOk(policy, states[k], i);
  }

  /** A tick is at most the QUANTAth charged since the dispatch, and whoever keeps the CPU after it has
      been charged fewer than that. */
  lemma Preemption(policy: Policy, states: seq<Sys>, events: seq<Event>, k: nat, user: bool)
    requires Run(policy, states, events) && k < |events| && events[k] == Tick(user) && states[k].current < NPROC
    ensures Counted(states[k]).charged == states[k].charged + 1 <= QUANTA
    ensures states[k + 1].current < NPROC ==>
              states[k + 1].current == states[k].current && states[k + 1].charged == states[k].charged + 1 < QUANTA
  {
    RunKeeps(policy, states, events, k);
    assert Follows(policy, states[k], events[k], states[k + 1]);
    CountedKeeps(policy, states[k]);
  }

  /** The ratio GRT works with is 1 for a process that has had every tick since its creation, else 0. */
  lemma RatioIsZeroOrOne(policy: Policy, states: seq<Sys>, events: seq<Event>, k: nat, i: nat)
    requires Run(policy, states, events) && k < |states| && i < NPROC && Used(states[k].procs[i])
    requires states[k].procs[i].ctime != states[k].ticks
    ensures var p := states[k].procs[i]; var life := states[k].ticks - p.ctime;
            life > 0 && p.rtime / life == if p.rtime == life then 1 else 0
  {
    RunTimes(policy, states, events, k, i);
  }
}
