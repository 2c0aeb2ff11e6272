/** What the numbers in the process table mean, over runs: counts of the events that have happened. */
module ProcHistory {
  import opened ProcTable
  import opened ProcSteps

  // ----- what an event does to one slot -----

  /** The current process ends: by exit, or by a timer trap in user mode when it has been killed. */
  predicate Ends(s: Sys, e: Event) {
    s.current < NPROC && (e.Exit? || (e.Tick? && e.user && s.procs[s.current].killed))
  }

  /** kill(pid) finds slot i first. */
  predicate Strikes(s: Sys, e: Event, i: nat)
    requires i < NPROC
  {
    e.Kill? && s.procs[i].pid == e.pid && forall j :: 0 <= j < i ==> s.procs[j].pid != e.pid
  }

  /** fork finds slot i free first. */
  predicate Fills(s: Sys, e: Event, i: nat)
    requires i < NPROC
  {
    e.Fork? && s.procs[i].state == Unused && forall j :: 0 <= j < i ==> s.procs[j].state != Unused
  }

  predicate SomeFree(s: Sys) {
    exists j :: 0 <= j < 64 && s.procs[j].state == Unused
  }

  predicate ZombieOf(s: Sys, me: nat, i: nat)
    requires i < NPROC
  {
    s.procs[i].parent == me && s.procs[i].state == Zombie
  }

  /** wait finds slot i: the first zombie child. */
  predicate Reaps(s: Sys, e: Event, i: nat)
    requires i < NPROC
  {
    e.Wait? && ZombieOf(s, s.current, i) && forall j :: 0 <= j < i ==> !ZombieOf(s, s.current, j)
  }

  /** The current process waits: it has a child, none is a zombie, and it has not been killed. */
  predicate WaitSleeps(s: Sys, e: Event) {
    && e.Wait? && s.current < NPROC && !s.procs[s.current].killed
    && (exists j :: 0 <= j < NPROC && s.procs[j].parent == s.current)
    && forall j :: 0 <= j < NPROC ==> !ZombieOf(s, s.current, j)
  }

  /** The sleeper in slot i is woken: by a wakeup of what it sleeps on, by a tick if it sleeps on the
      clock, by the end of a child if it waits, or of the parent of a zombie if it is init and waits, and
      by kill. */
  predicate Wakes(s: Sys, e: Event, i: nat)
    requires i < NPROC
  {
    var c := s.procs[i].chan;
    || (e.Wakeup? && c == Other(e.c))
    || (e.Tick? && c == Other(0))
    || (Ends(s, e) && c == Of(i)
        && (s.procs[s.current].parent == i
            || (i == 0 && exists z :: 0 <= z < NPROC && ZombieOf(s, s.current, z))))
    || Strikes(s, e, i)
  }

  /** The current process gives up the CPU and stays runnable: by yield, or at the end of its quanta. */
  predicate GivesUp(s: Sys, e: Event) {
    && s.current < NPROC && !Ends(s, e)
    && (e.Yield? || (e.Tick? && s.procs[s.current].quanta <= 1))
  }

  // ----- the life of a process -----

  lemma FirstAt(procs: Procs, f: Proc -> bool, i: nat)
    requires i < NPROC
    ensures First(procs, f, 0) == i <==> f(procs[i]) && forall j :: 0 <= j < i ==> !f(procs[j])
  {
  }

  /** What becomes of the process in a slot. */
  predicate Lives(s: Sys, e: Event, q: Proc, i: nat)
    requires i < NPROC
  {
    var p := s.procs[i];
    match p.state
    case Unused => q.state == if Fills(s, e, i) && e.memory then Runnable else Unused
    case Runnable => q.state == if e == Dispatch(i) then Running else Runnable
    case Running =>
      if Ends(s, e) then q.state == Zombie
      else if e.Sleep? then q.state == Sleeping && q.chan == Other(e.c)
      else if WaitSleeps(s, e) then q.state == Sleeping && q.chan == Of(i)
      else if GivesUp(s, e) then q.state == Runnable
      else q.state == Running
    case Sleeping => q.state == (if Wakes(s, e, i) then Runnable else Sleeping) && q.chan == p.chan
    case Zombie => q.state == if Reaps(s, e, i) then Unused else Zombie
    case Embryo => false
  }

  /** A slot is filled by fork, a process runs when it is dispatched, and ends, sleeps or gives up the CPU as
      said above; a sleeper sleeps until it is woken, and a zombie stays until its parent waits for it. */
  lemma LifeCycle(policy: Policy, s: Sys, e: Event, r: Sys, i: nat)
    requires Inv(policy, s) && Follows(policy, s, e, r) && i < NPROC
    ensures Lives(s, e, r.procs[i], i)
  {
    hide Forked, Exited, Waited, Killed, Ticked, Lives;
    if e.Fork? {
      LifeFork(policy, s, e.memory, i);
    } else if e.Exit? {
      LifeExit(policy, s, i);
    } else if e.Wait? {
      LifeWait(policy, s, i);
    } else if e.Kill? {
      LifeKill(policy, s, e.pid, i);
    } else if e.Tick? {
      LifeTick(policy, s, e.user, r, i);
    } else {
      LifeOther(policy, s, e, r, i);
    }
  }

  lemma LifeFork(policy: Policy, s: Sys, memory: bool, i: nat)
    requires Inv(policy, s) && s.current < NPROC && i < NPROC
    ensures Lives(s, Fork(memory), Forked(policy, s, memory).procs[i], i)
  {
    hide Forked;
    assert ProcOk(policy, s, i);
    ForkSlot(policy, s, memory, i);
  }

  lemma LifeExit(policy: Policy, s: Sys, i: nat)
    requires Inv(policy, s) && s.current < NPROC && s.current != INIT && i < NPROC
    ensures Lives(s, Exit, Exited(s).procs[i], i)
  {
    hide Exited;
    assert ProcOk(policy, s, i) && ProcOk(policy, s, s.current) && Parented(s, s.current);
    ExitSlot(policy, s, i);
  }

  lemma LifeWait(policy: Policy, s: Sys, i: nat)
    requires Inv(policy, s) && s.current < NPROC && i < NPROC
    ensures Lives(s, Wait, Waited(s).procs[i], i)
  {
    hide Waited;
    assert ProcOk(policy, s, i) && ProcOk(policy, s, s.current);
    WaitSlot(policy, s, i);
  }

  lemma LifeKill(policy: Policy, s: Sys, pid: int, i: nat)
    requires Inv(policy, s) && i < NPROC
    ensures Lives(s, Kill(pid), Killed(s, pid).procs[i], i)
  {
    hide Killed;
    assert ProcOk(policy, s, i);
    KillSlot(s, pid, i);
  }

  lemma LifeTick(policy: Policy, s: Sys, user: bool, r: Sys, i: nat)
    requires Inv(policy, s) && Ticked(policy, s, user) == Goes(r) && i < NPROC
    ensures Lives(s, Tick(user), r.procs[i], i)
  {
    hide Ticked;
    assert ProcOk(policy, s, i);
    TickSlot(policy, s, user, r, i);
  }

  lemma LifeOther(policy: Policy, s: Sys, e: Event, r: Sys, i: nat)
    requires Inv(policy, s) && Follows(policy, s, e, r) && Plain(e) && i < NPROC
    ensures Lives(s, e, r.procs[i], i)
  {
    assert ProcOk(policy, s, i);
    OtherSlot(policy, s, e, r, i);
    hide Follows;
  }

  /** It is put at the end of the queue when it gives up the CPU. */
  predicate Queues(policy: Policy, p: Proc) {
    policy == FRR || (policy == ThreeQ && p.priority == 2)
  }

  predicate Plain(e: Event) {
    e.Sleep? || e.Wakeup? || e.Yield? || e.Nice? || e.Scan? || e.Dispatch?
  }

  lemma OtherSlot(policy: Policy, s: Sys, e: Event, r: Sys, i: nat)
    requires Follows(policy, s, e, r) && Plain(e) && i < NPROC
    ensures var p, q := s.procs[i], r.procs[i];
            && r.ticks == s.ticks && r.nextpid == s.nextpid
            && q == p.(state := q.state, chan := q.chan, quanta := q.quanta, qvalue := q.qvalue, priority := q.priority)
            && (e.Sleep? ==> (i == s.current ==> q.state == Sleeping && q.chan == Other(e.c)) && r.current == NPROC)
            && (e.Yield? ==> (i == s.current ==> q.state == Runnable && q.chan == p.chan) && r.current == NPROC)
            && (e.Sleep? || e.Yield? ==> (i != s.current ==> q.state == p.state && q.chan == p.chan))
            && (e.Wakeup? ==>
                  && q.state == (if p.state == Sleeping && p.chan == Other(e.c) then Runnable else p.state)
                  && q.chan == p.chan && r.current == s.current)
            && (e.Nice? || e.Scan? ==> q.state == p.state && q.chan == p.chan && r.current == s.current)
            && (e.Dispatch? ==>
                  && q.state == (if e.i == i then Running else p.state) && r.current == e.i
                  && (e.i != i ==> q.chan == p.chan))
            && q.priority == (if e.Nice? && i == s.current && (p.priority == 3 || p.priority == 2) then p.priority - 1
                              else p.priority)
            && q.quanta == (if e.Scan? && i in e.renewed then 5 else p.quanta)
            && q.qvalue == (if e.Scan? && i in e.queue then e.queue[i]
                            else if e.Nice? && i == s.current && p.priority == 3 then s.ticks
                            else if e.Yield? && i == s.current && Queues(policy, p) then s.ticks
                            else p.qvalue)
  {
  }

  lemma ForkSlot(policy: Policy, s: Sys, memory: bool, i: nat)
    requires s.current < NPROC && i < NPROC
    ensures var r := Forked(policy, s, memory);
            && r.procs[i] == (if !Fills(s, Fork(memory), i) then s.procs[i]
                              else if memory then Child(policy, s, s.procs[i]) else s.procs[i].(pid := s.nextpid))
            && r.current == s.current && r.ticks == s.ticks
            && r.nextpid == s.nextpid + (if SomeFree(s) then 1 else 0)
  {
    FirstAt(s.procs, (p: Proc) => p.state == Unused, i);
    var k := First(s.procs, (p: Proc) => p.state == Unused, 0);
    if k == NPROC {
      forall j | 0 <= j < NPROC ensures s.procs[j].state != Unused {
        assert !((p: Proc) => p.state == Unused)(s.procs[j]);
      }
    }
    hide First;
  }

  lemma ExitSlot(policy: Policy, s: Sys, i: nat)
    requires i < NPROC && ProcOk(policy, s, i) && s.current < NPROC && s.current != INIT
    requires s.procs[s.current].parent < NPROC
    ensures var p, q := s.procs[i], Exited(s).procs[i];
            if i == s.current then q == p.(parent := q.parent, priority := -1, etime := s.ticks, state := Zombie)
            else q == p.(parent := if p.parent == s.current then INIT else p.parent, state := q.state)
                 && q.state == if p.state == Sleeping && Wakes(s, Exit, i) then Runnable else p.state
    ensures Exited(s).current == NPROC && Exited(s).ticks == s.ticks && Exited(s).nextpid == s.nextpid
  {
    HasZombieIs(s);
    hide HasZombie;
  }

  lemma HasZombieIs(s: Sys)
    ensures HasZombie(s.procs, s.current) <==> exists z :: 0 <= z < NPROC && ZombieOf(s, s.current, z)
  {
    if HasZombie(s.procs, s.current) {
      var z :| 0 <= z < NPROC && s.procs[z].parent == s.current && s.procs[z].state == Zombie;
      assert ZombieOf(s, s.current, z);
    }
  }

  lemma WaitSlot(policy: Policy, s: Sys, i: nat)
    requires s.current < NPROC && ProcOk(policy, s, s.current) && i < NPROC
    ensures var p, r := s.procs[i], Waited(s);
            && r.procs[i] == (if Reaps(s, Wait, i) then p.(state := Unused, pid := 0, parent := NPROC, killed := false)
                              else if i == s.current && WaitSleeps(s, Wait) then p.(chan := Of(i), state := Sleeping)
                              else p)
            && r.ticks == s.ticks && r.nextpid == s.nextpid
            && r.current == if WaitSleeps(s, Wait) then NPROC else s.current
  {
    var me := s.current;
    var zombie, child := (p: Proc) => p.parent == me && p.state == Zombie, (p: Proc) => p.parent == me;
    FirstAt(s.procs, zombie, i);
    var z, c := FirstZombie(s, me), FirstChild(s, me);
    if z < NPROC {
      assert ZombieOf(s, me, z);
    } else {
      forall j | 0 <= j < NPROC ensures !ZombieOf(s, me, j) {
        assert !zombie(s.procs[j]);
      }
    }
    if c == NPROC {
      forall j | 0 <= j < NPROC ensures s.procs[j].parent != me {
        assert !child(s.procs[j]);
      }
    }
    hide First;
  }

  lemma KillSlot(s: Sys, pid: int, i: nat)
    requires i < NPROC
    ensures var p, r := s.procs[i], Killed(s, pid);
            && r.procs[i] == (if Strikes(s, Kill(pid), i)
                              then p.(killed := true, state := if p.state == Sleeping then Runnable else p.state)
                              else p)
            && r.ticks == s.ticks && r.nextpid == s.nextpid && r.current == s.current
  {
    FirstAt(s.procs, (p: Proc) => p.pid == pid, i);
    hide First;
  }

  /** The slot after the tick is counted: one more for the current process, and sleepers on the clock awake. */
  function AfterCount(s: Sys, i: nat): Proc
    requires i < NPROC
  {
    var p := s.procs[i];
    var q := if i == s.current then p.(rtime := p.rtime + 1, quanta := p.quanta - 1) else p;
    if p.state == Sleeping && p.chan == Other(0) then q.(state := Runnable) else q
  }

  lemma TickSlot(policy: Policy, s: Sys, user: bool, r: Sys, i: nat)
    requires Inv(policy, s) && Ticked(policy, s, user) == Goes(r) && i < NPROC
    ensures var p, a, q := s.procs[i], AfterCount(s, i), r.procs[i];
            && r.ticks == s.ticks + 1 && r.nextpid == s.nextpid
            && if Ends(s, Tick(user)) then
                 && s.current != INIT && r.current == NPROC
                 && if i == s.current
                    then q == a.(parent := q.parent, priority := -1, etime := s.ticks + 1, state := Zombie)
                    else q == a.(parent := if p.parent == s.current then INIT else p.parent, state := q.state)
                         && q.state == if p.state == Sleeping && Wakes(s, Tick(user), i) then Runnable else p.state
               else if GivesUp(s, Tick(user)) then
                 && r.current == NPROC
                 && q == (if i == s.current
                          then a.(qvalue := if Queues(policy, p) then s.ticks + 1 else p.qvalue, state := Runnable)
                          else a)
               else r.current == s.current && q == a
  {
    hide Exited, Inv;
    CountedSlot(s, i);
    if s.current < NPROC {
      CountedSlot(s, s.current);
    }
    if Ends(s, Tick(user)) {
      TickEnds(policy, s, i);
    }
  }

  /** A killed process ends at the tick. */
  lemma TickEnds(policy: Policy, s: Sys, i: nat)
    requires Inv(policy, s) && Ends(s, Tick(true)) && s.current != INIT && i < NPROC
    ensures var p, a, r := s.procs[i], AfterCount(s, i), Exited(Counted(s));
            && r.ticks == s.ticks + 1 && r.nextpid == s.nextpid && r.current == NPROC
            && if i == s.current
               then r.procs[i] == a.(parent := r.procs[i].parent, priority := -1, etime := s.ticks + 1, state := Zombie)
               else r.procs[i] == a.(parent := if p.parent == s.current then INIT else p.parent,
                                     state := r.procs[i].state)
                    && r.procs[i].state == if p.state == Sleeping && Wakes(s, Tick(true), i) then Runnable else p.state
  {
    hide Exited;
    var a := Counted(s);
    CountedSlot(s, i);
    CountedKeeps(policy, s);
    CountedSlot(s, s.current);
    assert ProcOk(policy, s, i) && ProcOk(policy, a, i) && ProcOk(policy, s, s.current) && Parented(s, s.current);
    hide Inv;
    ExitSlot(policy, a, i);
    SameZombies(s);
    hide Counted;
  }

  lemma CountedSlot(s: Sys, i: nat)
    requires i < NPROC
    ensures Counted(s).procs[i] == AfterCount(s, i)
    ensures Counted(s).ticks == s.ticks + 1 && Counted(s).current == s.current && Counted(s).nextpid == s.nextpid
  {
  }

  lemma SameZombies(s: Sys)
    ensures var a := Counted(s);
            forall z :: 0 <= z < NPROC ==> (ZombieOf(a, s.current, z) <==> ZombieOf(s, s.current, z))
  {
    forall z | 0 <= z < NPROC
      ensures ZombieOf(Counted(s), s.current, z) <==> ZombieOf(s, s.current, z)
    {
      CountedSlot(s, z);
    }
    hide Counted;
  }

  /** What becomes of the numbers of a process, from its fork to the wait that reaps it. */
  predicate Numbered(policy: Policy, s: Sys, e: Event, q: Proc, i: nat)
    requires i < NPROC
  {
    var p := s.procs[i];
    if p.state == Unused && q.state == Unused then q.killed <==> p.killed || Strikes(s, e, i)
    else if p.state == Unused then
      && q.pid == s.nextpid && q.ctime == s.ticks && q.rtime == 0 && q.parent == s.current && q.killed == p.killed
      && q.quanta == p.quanta
      && (policy == ThreeQ ==> q.priority == 3)
      && q.qvalue == (if policy == FRR then s.ticks else if policy == RR then p.qvalue else 0)
    else if q.state == Unused then !q.killed && q.pid == 0 && q.parent == NPROC
    else
      && q.pid == p.pid && q.ctime == p.ctime
      && q.rtime == p.rtime + (if e.Tick? && i == s.current then 1 else 0)
      && q.etime == (if Ends(s, e) && i == s.current then s.ticks + (if e.Tick? then 1 else 0) else p.etime)
      && (q.killed <==> p.killed || Strikes(s, e, i))
      && ((Ends(s, e) && i == s.current) || q.parent == if Ends(s, e) && p.parent == s.current then 0 else p.parent)
      && q.priority == (if Ends(s, e) && i == s.current then -1
                        else if e.Nice? && i == s.current && (p.priority == 3 || p.priority == 2) then p.priority - 1
                        else p.priority)
      && q.quanta == (if e.Tick? && i == s.current then p.quanta - 1
                      else if e.Scan? && i in e.renewed then 5 else p.quanta)
      && q.qvalue == (if e.Scan? && i in e.queue then e.queue[i]
                      else if e.Nice? && i == s.current && p.priority == 3 then s.ticks
                      else if GivesUp(s, e) && i == s.current && Queues(policy, p)
                      then s.ticks + (if e.Tick? then 1 else 0)
                      else p.qvalue)
  }

  lemma Numbers(policy: Policy, s: Sys, e: Event, r: Sys, i: nat)
    requires Inv(policy, s) && Follows(policy, s, e, r) && i < NPROC
    ensures Numbered(policy, s, e, r.procs[i], i)
    ensures r.ticks == s.ticks + (if e.Tick? then 1 else 0)
    ensures r.nextpid == s.nextpid + (if e.Fork? && SomeFree(s) then 1 else 0)
  {
    hide Forked, Exited, Waited, Killed, Ticked, Numbered;
    if e.Fork? {
      NumbersFork(policy, s, e.memory, i);
    } else if e.Exit? {
      NumbersExit(policy, s, i);
    } else if e.Wait? {
      NumbersWait(policy, s, i);
    } else if e.Kill? {
      NumbersKill(policy, s, e.pid, i);
    } else if e.Tick? {
      NumbersTick(policy, s, e.user, r, i);
    } else {
      NumbersOther(policy, s, e, r, i);
    }
  }

  lemma NumbersFork(policy: Policy, s: Sys, memory: bool, i: nat)
    requires Inv(policy, s) && s.current < NPROC && i < NPROC
    ensures var r := Forked(policy, s, memory);
            && Numbered(policy, s, Fork(memory), r.procs[i], i) && r.ticks == s.ticks
            && r.nextpid == s.nextpid + (if SomeFree(s) then 1 else 0)
  {
    hide Forked;
    ForkSlot(policy, s, memory, i);
  }

  lemma NumbersExit(policy: Policy, s: Sys, i: nat)
    requires Inv(policy, s) && s.current < NPROC && s.current != INIT && i < NPROC
    ensures var r := Exited(s); Numbered(policy, s, Exit, r.procs[i], i) && r.ticks == s.ticks && r.nextpid == s.nextpid
  {
    hide Exited;
    assert ProcOk(policy, s, i) && ProcOk(policy, s, s.current) && Parented(s, s.current);
    ExitSlot(policy, s, i);
  }

  lemma NumbersWait(policy: Policy, s: Sys, i: nat)
    requires Inv(policy, s) && s.current < NPROC && i < NPROC
    ensures var r := Waited(s); Numbered(policy, s, Wait, r.procs[i], i) && r.ticks == s.ticks && r.nextpid == s.nextpid
  {
    hide Waited;
    assert ProcOk(policy, s, i) && ProcOk(policy, s, s.current);
    WaitSlot(policy, s, i);
  }

  lemma NumbersKill(policy: Policy, s: Sys, pid: int, i: nat)
    requires Inv(policy, s) && i < NPROC
    ensures var r := Killed(s, pid);
            Numbered(policy, s, Kill(pid), r.procs[i], i) && r.ticks == s.ticks && r.nextpid == s.nextpid
  {
    hide Killed;
    assert ProcOk(policy, s, i);
    KillSlot(s, pid, i);
  }

  lemma NumbersTick(policy: Policy, s: Sys, user: bool, r: Sys, i: nat)
    requires Inv(policy, s) && Ticked(policy, s, user) == Goes(r) && i < NPROC
    ensures Numbered(policy, s, Tick(user), r.procs[i], i) && r.ticks == s.ticks + 1 && r.nextpid == s.nextpid
  {
    hide Ticked;
    assert ProcOk(policy, s, i);
    TickSlot(policy, s, user, r, i);
  }

  lemma NumbersOther(policy: Policy, s: Sys, e: Event, r: Sys, i: nat)
    requires Inv(policy, s) && Follows(policy, s, e, r) && Plain(e) && i < NPROC
    ensures Numbered(policy, s, e, r.procs[i], i) && r.ticks == s.ticks && r.nextpid == s.nextpid
  {
    hide Follows, Inv, ProcOk;
    Runs(policy, s, e, r, i);
    OtherSlot(policy, s, e, r, i);
  }

  lemma Runs(policy: Policy, s: Sys, e: Event, r: Sys, i: nat)
    requires Inv(policy, s) && Follows(policy, s, e, r) && i < NPROC
    ensures s.procs[i].state == Running <==> i == s.current
    ensures e.Sleep? || e.Yield? || e.Nice? ==> s.current < NPROC
    ensures e.Dispatch? ==> e.i < NPROC && s.procs[e.i].state == Runnable
  {
    hide Step;
    assert ProcOk(policy, s, i);
  }
}
