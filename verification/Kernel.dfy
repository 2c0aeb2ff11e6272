/** proc.c and the timer branch of trap.c: the process table, the clock and the scheduler, in place. */
module Kernel {
  import opened ProcTable
  import opened ProcSteps
  import opened Scheduling

  class Kernel {
    const policy: Policy     // SCHEDFLAG
    var sys: Sys
    var l: Locals            // of scheduler()

    ghost predicate Valid()
      reads this
    {
      Inv(policy, sys) && LocalsOk(l)
    }

    /** userinit; the scheduler's locals hold anything but have no process yet. */
    constructor (policy: Policy, p: nat, medium: nat, high: nat, t: nat)
      requires LocalsOk(Locals(NULL, t, p, medium, high))
      ensures Valid() && sys == Boot() && this.policy == policy
    {
      this.policy := policy;
      sys := Boot();
      l := Locals(NULL, t, p, medium, high);
      new;
      BootOk(policy);
    }

    method Put(i: nat, p: Proc)
      requires i < NPROC
      modifies this`sys
      ensures sys == Set(old(sys), i, p)
    {
      sys := sys.(procs := sys.procs[i := p]);
    }

    // ----- sleep and wakeup -----

    method Wakeup1(c: Chan)
      modifies this`sys
      ensures sys == WokenUp(old(sys), c)
    {
      var i := 0;
      while i < NPROC
        invariant i <= NPROC && sys == old(sys).(procs := sys.procs)
        invariant forall k :: 0 <= k < NPROC ==>
                    sys.procs[k] == if k < i then Wake(old(sys).procs[k], c) else old(sys).procs[k]
      {
        if sys.procs[i].state == Sleeping && sys.procs[i].chan == c {
          Put(i, sys.procs[i].(state := Runnable));
        }
        i := i + 1;
      }
      assert sys.procs == Woken(old(sys).procs, c);
    }

    method Sched(p: Proc)
      requires sys.current < NPROC
      modifies this`sys
      ensures sys == Left(old(sys), p)
    {
      Put(sys.current, p);
      sys := sys.(current := NPROC, charged := 0);
    }

    /** sleep, for anything but a wait for children. */
    method Sleep(c: nat)
      requires Valid() && sys.current < NPROC
      modifies this`sys
      ensures Valid() && sys == Slept(old(sys), Other(c))
    {
      SleptKeeps(policy, sys, Other(c));
      Sched(sys.procs[sys.current].(chan := Other(c), state := Sleeping));
    }

    method Yield()
      requires sys.current < NPROC
      modifies this`sys
      ensures sys == Yielded(policy, old(sys))
    {
      var p := sys.procs[sys.current];
      match policy {
        case FRR => p := p.(qvalue := sys.ticks);
        case ThreeQ =>
          if p.priority == MEDIUM {
            p := p.(qvalue := sys.ticks);
          }
        case _ =>
      }
      Sched(p.(state := Runnable));
    }

    // ----- exit and wait -----

    /** exit of the current process; init must not. */
    method Exit() returns (panicked: bool)
      requires sys.current < NPROC
      modifies this`sys
      ensures panicked <==> old(sys).current == INIT
      ensures panicked ==> sys == old(sys)
      ensures !panicked ==> sys == Exited(old(sys))
    {
      panicked := sys.current == INIT;
      if panicked {
        return;
      }
      hide ZombieBelow, HasZombie, AllAdopted;
      ghost var s := sys;
      var me := sys.current;
      Wakeup1(if sys.procs[me].parent < NPROC then Of(sys.procs[me].parent) else Nothing);
      HandOver(me, s.procs);
      var p := sys.procs[me];
      Sched(p.(priority := -1, etime := sys.ticks, state := Zombie));
    }

    /** The loop of exit: the children go to init, which is woken for a zombie. was is the table that exit
        found, before its first wakeup. */
    method HandOver(me: nat, ghost was: Procs)
      requires me < NPROC && forall k :: 0 <= k < NPROC ==>
                 && sys.procs[k].parent == was[k].parent
                 && (sys.procs[k].state == Zombie <==> was[k].state == Zombie)
      modifies this`sys
      ensures var all := if HasZombie(was, me) then Woken(old(sys).procs, Of(INIT)) else old(sys).procs;
              sys == old(sys).(procs := AllAdopted(all, me))
    {
      hide ZombieBelow, HasZombie, AllAdopted;
      ghost var s, woken, told := sys, sys.procs, false;
      ZombieNone(was, me);
      var i := 0;
      while i < NPROC
        invariant i <= NPROC && sys == s.(procs := sys.procs)
        invariant told <==> ZombieBelow(was, me, i)
        invariant forall k :: 0 <= k < NPROC ==> sys.procs[k] == Half(woken[k], told, k < i, me)
      {
        ZombieNext(was, me, i);
        if sys.procs[i].parent == me {
          Put(i, sys.procs[i].(parent := INIT));
          if sys.procs[i].state == Zombie {
            Wakeup1(Of(INIT));
            told := true;
          }
        }
        i := i + 1;
      }
      HalfAll(woken, told, me, sys.procs);
    }

    /** wait and wait2: one pass over the table, to the return or to the sleep. */
    method Wait2() returns (pid: int, wtime: int, rtime: int, asleep: bool)
      requires Valid() && sys.current < NPROC
      modifies this`sys
      ensures Valid() && sys == Waited(old(sys))
      ensures var z := FirstZombie(old(sys), old(sys).current);
              && (z < NPROC ==>
                    && pid == old(sys).procs[z].pid && !asleep && rtime == old(sys).procs[z].rtime
                    && wtime == old(sys).procs[z].etime - old(sys).procs[z].ctime - rtime && 0 <= wtime)
              && (z == NPROC ==> pid == -1)
      ensures asleep <==> sys.current == NPROC
    {
      hide Inv, First;
      WaitedKeeps(policy, sys);
      ghost var s := sys;
      var me := sys.current;
      var havekids := false;
      pid, wtime, rtime, asleep := -1, 0, 0, false;
      var i := 0;
      while i < NPROC
        invariant i <= NPROC && sys == s && pid == -1 && !asleep
        invariant FirstZombie(s, me) >= i
        invariant havekids <==> FirstChild(s, me) < i
      {
        FirstSteps(sys, me, i);
        if sys.procs[i].parent == me {
          havekids := true;
          if sys.procs[i].state == Zombie {
            InvTimes(policy, s, i);
            rtime := sys.procs[i].rtime;
            wtime := sys.procs[i].etime - sys.procs[i].ctime - sys.procs[i].rtime;
            pid := sys.procs[i].pid;
            Put(i, sys.procs[i].(state := Unused, pid := 0, parent := NPROC, killed := false));
            return;
          }
        }
        i := i + 1;
      }
      if !havekids || sys.procs[me].killed {
        return;
      }
      asleep := true;
      Sched(sys.procs[me].(chan := Of(me), state := Sleeping));
    }

    // ----- fork, kill, nice -----

    /** allocproc's search. */
    method FindUnused() returns (i: nat)
      ensures i == First(sys.procs, (p: Proc) => p.state == Unused, 0)
    {
      ghost var f := (p: Proc) => p.state == Unused;
      i := 0;
      while i < NPROC
        invariant i <= NPROC && First(sys.procs, f, 0) == First(sys.procs, f, i)
      {
        if sys.procs[i].state == Unused {
          return;
        }
        i := i + 1;
      }
    }

    /** fork with allocproc; memory tells whether kalloc and copyuvm find any. */
    method Fork(memory: bool) returns (pid: int)
      requires Valid() && sys.current < NPROC
      modifies this`sys
      ensures Valid() && sys == Forked(policy, old(sys), memory)
      ensures pid == (if memory && First(old(sys).procs, (p: Proc) => p.state == Unused, 0) < NPROC
                      then old(sys).nextpid else -1)
    {
      hide Inv, First;
      ForkedKeeps(policy, sys, memory);
      var i := FindUnused();
      if i == NPROC {
        return -1;
      }
      pid := sys.nextpid;
      Put(i, sys.procs[i].(state := Embryo, pid := pid));
      sys := sys.(nextpid := sys.nextpid + 1);
      if !memory {
        Put(i, sys.procs[i].(state := Unused));
        assert sys.procs == Forked(policy, old(sys), memory).procs;
        return -1;
      }
      var np := sys.procs[i].(parent := sys.current, state := Runnable, ctime := sys.ticks, rtime := 0);
      match policy {
        case FRR => np := np.(qvalue := np.ctime);
        case GRT => np := np.(qvalue := 0);
        case ThreeQ => np := np.(priority := HIGH, qvalue := 0);
        case RR =>
      }
      Put(i, np);
      assert sys.procs == Forked(policy, old(sys), memory).procs;
    }

    method Kill(pid: int) returns (r: int)
      requires Valid()
      modifies this`sys
      ensures Valid() && sys == Killed(old(sys), pid)
      ensures r == if First(old(sys).procs, (p: Proc) => p.pid == pid, 0) < NPROC then 0 else -1
    {
      hide Inv;
      KilledKeeps(policy, sys, pid);
      ghost var f := (p: Proc) => p.pid == pid;
      var i := 0;
      while i < NPROC
        invariant i <= NPROC && sys == old(sys) && First(sys.procs, f, 0) == First(sys.procs, f, i)
      {
        if sys.procs[i].pid == pid {
          Put(i, sys.procs[i].(killed := true));
          if sys.procs[i].state == Sleeping {
            Put(i, sys.procs[i].(state := Runnable));
          }
          assert sys.procs == Killed(old(sys), pid).procs;
          return 0;
        }
        i := i + 1;
      }
      r := -1;
    }

    method Nice() returns (r: int)
      requires Valid() && sys.current < NPROC
      modifies this`sys
      ensures Valid() && sys == Niced(old(sys))
      ensures r == if old(sys).procs[old(sys).current].priority in {HIGH, MEDIUM} then 0 else -1
    {
      NicedKeeps(policy, sys);
      var p := sys.procs[sys.current];
      if p.priority == HIGH {
        Put(sys.current, p.(priority := p.priority - 1, qvalue := sys.ticks));
        return 0;
      } else if p.priority == MEDIUM {
        Put(sys.current, p.(priority := p.priority - 1));
        return 0;
      }
      r := -1;
    }

    // ----- the clock -----

    /** A timer interrupt, user telling whether it came from user mode. */
    method Timer(user: bool) returns (panicked: bool)
      requires Valid()
      modifies this`sys
      ensures !panicked ==> Valid() && Ticked(policy, old(sys), user) == Goes(sys)
      ensures panicked <==> Ticked(policy, old(sys), user) == Panic
    {
      hide Exited, Counted, Yielded;
      TickedKeeps(policy, sys, user);
      panicked := false;
      Tick();
      if sys.current < NPROC && sys.procs[sys.current].killed && user {
        panicked := Exit();
        return;
      }
      if sys.current < NPROC && sys.procs[sys.current].quanta <= 0 {
        Yield();
      }
    }

    /** The tick is counted, for the clock and for the current process, and those who wait for it wake up. */
    method Tick()
      modifies this`sys
      ensures sys == Counted(old(sys))
    {
      sys := sys.(ticks := sys.ticks + 1);
      if sys.current < NPROC {
        var p := sys.procs[sys.current];
        Put(sys.current, p.(rtime := p.rtime + 1, quanta := p.quanta - 1));
        sys := sys.(charged := sys.charged + 1);
      }
      Wakeup1(Other(TICKS));
    }

    // ----- the scheduler -----

    /** The statements at label GRT, for process t. */
    method LookGrt(now: nat, t: nat, least: int, ghost s: Sys, ghost renewed: set<nat>, ghost queue: map<nat, nat>)
      returns (least': int, ghost queue': map<nat, nat>)
      requires t < NPROC && sys == s.(procs := Scanned(s.procs, renewed, queue)) && sys.procs[t] == s.procs[t]
      requires 0 <= s.procs[t].rtime && 0 <= s.procs[t].qvalue && s.procs[t].ctime <= now
      modifies this`sys, this`l
      ensures sys == s.(procs := Scanned(s.procs, renewed, queue'))
      ensures queue' == if s.procs[t].ctime != now then queue[t := Ratio(s.procs[t], now)] else queue
      ensures l == old(l).(high := if least == 0 || Ratio(s.procs[t], now) < least then t else old(l).high)
      ensures least' == if least == 0 || Ratio(s.procs[t], now) < least then Ratio(s.procs[t], now) else least
    {
      hide Scanned;
      least', queue' := least, queue;
      if sys.procs[t].ctime != now {
        ScannedQueued(s.procs, renewed, queue, t, Ratio(s.procs[t], now));
        queue' := queue'[t := Ratio(s.procs[t], now)];
        Put(t, sys.procs[t].(qvalue := sys.procs[t].rtime / (now - sys.procs[t].ctime)));
      }
      if least' == 0 || sys.procs[t].qvalue < least' {
        least' := sys.procs[t].qvalue;
        l := l.(high := t);
      }
    }

    /** The statements at label FRR. */
    method LookFrr(t: nat, least: int, ghost s: Sys, ghost renewed: set<nat>, ghost queue: map<nat,
                   nat>) returns (least': int)
      requires t < NPROC && sys == s.(procs := Scanned(s.procs, renewed, queue)) && sys.procs[t] == s.procs[t]
      requires 0 <= s.procs[t].qvalue
      modifies this`sys, this`l
      ensures sys == s.(procs := Scanned(s.procs, renewed + {t}, queue))
      ensures l == old(l).(medium := if least == 0 || Queued(s.procs[t]) < least then t else old(l).medium)
      ensures least' == if least == 0 || Queued(s.procs[t]) < least then Queued(s.procs[t]) else least
    {
      hide Scanned;
      least' := least;
      ScannedRenewed(s.procs, renewed, queue, t);
      Put(t, sys.procs[t].(quanta := QUANTA));
      if least' == 0 || sys.procs[t].qvalue < least' {
        least' := sys.procs[t].qvalue;
        l := l.(medium := t);
      }
    }

    /** The switch of one visit of a scan, for the process the pointer stands at. */
    method Look(now: nat, seen: Seen, ghost s: Sys, ghost l0: Locals, ghost i: nat, ghost renewed: set<nat>,
                ghost queue: map<nat, nat>)
      returns (r: Seen, ghost renewed': set<nat>, ghost queue': map<nat, nat>)
      requires policy != RR && Inv(policy, s) && i < NPROC && now == s.ticks && l.t == Visit(l0.t, i)
      requires ScanAt(policy, s, l0, i, sys, l, seen, renewed, queue) && sys.procs[l.t].state == Runnable
      modifies this`sys, this`l
      ensures ScanAt(policy, s, l0, i + 1, sys, l.(t := l.t + 1), r, renewed', queue') && l.t == old(l).t
    {
      hide Inv, GrtSeen, FrrSeen, LowSeen, Scanned, Visit, Turn, ScanAt, LocalsOk, GrtUpdate, FrrUpdate, LowUpdate,
        NoteUpdate;
      Unvisited(policy, s, l0, i, sys, l, seen, renewed, queue);
      r, renewed', queue' := Switch(now, seen, s, renewed, queue);
      NoteWithin(policy, s.procs[l.t], now, l.t, seen.lowflag, renewed, queue, renewed', queue');
      ScanNext(policy, s, l0, i, old(sys), old(l), seen, renewed, queue, l, r, renewed', queue');
    }

    /** Its cases. */
    method Switch(now: nat, seen: Seen, ghost s: Sys, ghost renewed: set<nat>, ghost queue: map<nat, nat>)
      returns (r: Seen, ghost renewed': set<nat>, ghost queue': map<nat, nat>)
      requires policy != RR && l.t < NPROC && sys == s.(procs := Scanned(s.procs, renewed, queue))
      requires sys.procs[l.t] == s.procs[l.t] && s.procs[l.t].state == Runnable && now == s.ticks
      requires 0 <= s.procs[l.t].rtime && 0 <= s.procs[l.t].qvalue && s.procs[l.t].ctime <= now
      modifies this`sys, this`l
      ensures sys == s.(procs := Scanned(s.procs, renewed', queue'))
      ensures l.t == old(l).t && l.p == old(l).p
      ensures GrtUpdate(policy, s.procs[l.t], now, l.t, seen.grtMin, seen.highflag, old(l).high, r.grtMin,
                        r.highflag, l.high)
      ensures FrrUpdate(policy, s.procs[l.t], l.t, seen.frrMin, seen.mediumflag, old(l).medium,
                        r.frrMin, r.mediumflag, l.medium)
      ensures LowUpdate(policy, s.procs[l.t], l.t, seen.lowflag, old(l).head, r.lowflag, l.head)
      ensures NoteUpdate(policy, s.procs[l.t], now, l.t, seen.lowflag, renewed, queue, renewed', queue')
    {
      hide Scanned, Ratio, Queued;
      var t := l.t;
      r, renewed', queue' := seen, renewed, queue;
      var prio := sys.procs[t].priority;
      if policy == GRT || (policy == ThreeQ && (prio == HIGH || prio == 0)) {
        var least;
        least, queue' := LookGrt(now, t, seen.grtMin, s, renewed, queue);
        r := r.(highflag := policy == ThreeQ || seen.highflag, grtMin := least);
      } else if policy == FRR || prio == MEDIUM {
        var least := LookFrr(t, seen.frrMin, s, renewed, queue);
        renewed' := renewed + {t};
        r := r.(mediumflag := policy == ThreeQ || seen.mediumflag, frrMin := least);
      } else if !r.lowflag && prio == LOW {
        ScannedRenewed(s.procs, renewed, queue, t);
        renewed' := renewed + {t};
        l := l.(head := t);
        r := r.(lowflag := true);
        Put(t, sys.procs[t].(quanta := QUANTA));
      }
    }

    /** The loop over the table; the pointer of the scan starts at l.t. */
    method ScanTable(now: nat) returns (seen: Seen, ghost renewed: set<nat>, ghost queue: map<nat, nat>)
      requires policy != RR && Inv(policy, sys) && LocalsOk(l) && now == sys.ticks
      modifies this`sys, this`l
      ensures ScanAt(policy, old(sys), old(l), NPROC, sys, l, seen, renewed, queue)
    {
      hide Inv, GrtSeen, FrrSeen, LowSeen, Scanned, Turn, Paced, LocalsOk, Noted;
      ghost var s, l0 := sys, l;
      seen := Seen(false, false, false, 0, 0);
      renewed, queue := {}, map[];
      var i := 0;
      NothingSeen(policy, s, l0);
      while i < NPROC
        invariant i <= NPROC && ScanAt(policy, s, l0, i, sys, l, seen, renewed, queue)
      {
        ScanPointer(policy, s, l0, i, sys, l, seen, renewed, queue);
        if l.t >= NPROC {
          l := l.(t := 0);
        }
        if sys.procs[l.t].state == Runnable {
          seen, renewed, queue := Look(now, seen, s, l0, i, renewed, queue);
        } else {
          NotLooked(policy, s, l0, i, sys, l, seen, renewed, queue);
        }
        l := l.(t := l.t + 1);
        i := i + 1;
      }
    }

    /** One round of scheduler() under FRR, GRT or 3Q, up to the switch to the chosen process. */
    method Round() returns (chosen: nat, ghost renewed: set<nat>, ghost queue: map<nat, nat>)
      requires Valid() && policy != RR && sys.current == NPROC
      modifies this`sys, this`l
      ensures Valid() && RoundEnds(policy, old(sys).procs, old(sys).ticks, old(l), l, chosen)
      ensures Enabled(old(sys), Scan(renewed, queue))
      ensures Noted(policy, old(sys).procs, old(sys).ticks, Started(old(l)).t, NPROC, renewed, queue)
      ensures chosen < NPROC && !InGrt(policy, old(sys).procs[chosen]) ==> sys.procs[chosen].quanta == 5
      ensures var mid := old(sys).(procs := Scanned(old(sys).procs, renewed, queue));
              if chosen < NPROC then Follows(policy, mid, Dispatch(chosen), sys) else sys == mid
    {
      hide Inv, GrtSeen, FrrSeen, LowSeen, Choice, LowMembers, Scanned, RoundEnds, Follows, Noted;
      ghost var s, was := sys, l;
      if l.head != NULL && l.p == l.head {
        l := l.(head := l.head + 1, t := l.head + 1);
      } else if l.head != NULL {
        l := l.(t := l.head);
      }
      ghost var l0 := l;
      var seen;
      seen, renewed, queue := ScanTable(sys.ticks);
      ChosenIs(policy, s, l0, l, seen);
      HeadIs(policy, s, l0, l, seen);
      ScannedKeeps(policy, s, renewed, queue);
      chosen := Dispatcher(seen);
      EndOfRound(policy, s.procs, s.ticks, was, l, chosen);
      if chosen < NPROC {
        DispatchFollows(policy, s.(procs := Scanned(s.procs, renewed, queue)), chosen);
        ChosenRenewed(policy, s.procs, s.ticks, l0.t, renewed, queue);
        assert sys.procs[chosen].quanta == Scanned(s.procs, renewed, queue)[chosen].quanta;
      }
    }

    /** scheduler() under RR, from one switch to the next. */
    method RrRound() returns (chosen: nat)
      requires Valid() && policy == RR && sys.current == NPROC
      modifies this`sys, this`l
      ensures Valid() && chosen == RrChoice(old(sys).procs, old(l).t)
      ensures chosen == NPROC ==> sys == old(sys)
      ensures chosen < NPROC ==> l.t == chosen + 1 && l.p == chosen && sys.procs[chosen].quanta == 5
      ensures chosen < NPROC ==>
                var mid := old(sys).(procs := Scanned(old(sys).procs, {chosen}, map[]));
                Follows(policy, mid, Dispatch(chosen), sys)
    {
      hide Inv, Scanned, RrChoice, RrMembers, Turn, Follows;
      ghost var s, t0 := sys, l.t;
      var i := 0;
      RrStarts(s.procs, t0);
      while i < NPROC
        invariant i <= NPROC && sys == s && Paced(t0, i, l.t, {}, map[]) && RrMembers(s.procs, t0, i) == []
        invariant LocalsOk(l)
      {
        if l.t >= NPROC {
          l := l.(t := 0);
        }
        RrNext(s.procs, t0, i);
        PacedNext(t0, i, l.t, {}, map[], {}, map[]);
        if sys.procs[l.t].state == Runnable {
          chosen := l.t;
          RrDispatch(chosen);
          return;
        }
        l := l.(t := l.t + 1);
        i := i + 1;
      }
      chosen := NPROC;
      RrEnds(s.procs, t0);
    }

    /** Process v, where the pointer stands, gets the CPU. */
    method RrDispatch(v: nat)
      requires Valid() && policy == RR && sys.current == NPROC
      requires v < NPROC && v == l.t && sys.procs[v].state == Runnable
      modifies this`sys, this`l
      ensures Valid() && l.t == v + 1 && l.p == v && sys.procs[v].quanta == 5
      ensures var mid := old(sys).(procs := Scanned(old(sys).procs, {v}, map[]));
              Follows(policy, mid, Dispatch(v), sys)
    {
      hide Inv, Scanned, Follows;
      ghost var s := sys;
      ScannedKeeps(policy, s, {v}, map[]);
      DispatchedKeeps(policy, s.(procs := Scanned(s.procs, {v}, map[])), v);
      RrScanned(s.procs, v);
      l := l.(p := v, t := l.t + 1);
      Put(v, sys.procs[v].(quanta := QUANTA));
      Put(v, sys.procs[v].(state := Running, chan := Nothing));
      sys := sys.(current := v, charged := 0);
      DispatchFollows(policy, s.(procs := Scanned(s.procs, {v}, map[])), v);
    }

    /** The end of a round: p is chosen, and runs if it is runnable. */
    method Dispatcher(seen: Seen) returns (chosen: nat)
      requires Valid() && policy != RR && sys.current == NPROC
      modifies this`sys, this`l
      ensures Valid() && l == old(l).(p := Chosen(policy, seen, old(l), old(sys).procs)) && chosen <= NPROC
      ensures chosen < NPROC <==> l.p < NPROC && old(sys).procs[l.p].state == Runnable
      ensures chosen < NPROC ==> chosen == l.p && sys == Dispatched(old(sys), chosen)
      ensures chosen == NPROC ==> sys == old(sys)
    {
      hide Inv;
      chosen := NPROC;
      if policy == FRR {
        l := l.(p := l.medium);
      } else if policy == GRT {
        l := l.(p := l.high);
      } else {
        if seen.highflag && l.high != NULL {
          l := l.(p := l.high);
        } else if seen.mediumflag && l.medium != NULL {
          l := l.(p := l.medium);
        } else if l.head < NPROC && sys.procs[l.head].state == Runnable {
          l := l.(p := l.head);
        }
      }
      if l.p < NPROC && sys.procs[l.p].state == Runnable {
        chosen := l.p;
        DispatchedKeeps(policy, sys, chosen);
        Put(chosen, sys.procs[chosen].(state := Running, chan := Nothing));
        sys := sys.(current := chosen, charged := 0);
      }
    }
  }

  /** Slot k in the middle of exit's loop. */
  function Half(p: Proc, told: bool, done: bool, me: nat): Proc {
    var q := if told then Wake(p, Of(INIT)) else p;
    if done then Adopted(q, me) else q
  }

  lemma HalfAll(woken: Procs, told: bool, me: nat, procs: Procs)
    requires forall k :: 0 <= k < NPROC ==> procs[k] == Half(woken[k], told, true, me)
    ensures procs == AllAdopted(if told then Woken(woken, Of(INIT)) else woken, me)
  {
  }

  lemma InvTimes(policy: Policy, s: Sys, i: nat)
    requires Inv(policy, s) && i < NPROC
    ensures TimesOk(s.procs[i], s.ticks)
  {
    assert ProcOk(policy, s, i);
  }

  ghost predicate ZombieBelow(procs: Procs, me: nat, i: nat)
    requires i <= NPROC
  {
    exists k :: 0 <= k < i && procs[k].parent == me && procs[k].state == Zombie
  }

  lemma ZombieNext(procs: Procs, me: nat, i: nat)
    requires i < NPROC
    ensures ZombieBelow(procs, me, i + 1) <==>
              ZombieBelow(procs, me, i) || (procs[i].parent == me && procs[i].state == Zombie)
  {
  }

  lemma ZombieNone(procs: Procs, me: nat)
    ensures !ZombieBelow(procs, me, 0) && (ZombieBelow(procs, me, NPROC) <==> HasZombie(procs, me))
  {
  }

  /** One more slot of wait's scan. */
  lemma FirstSteps(s: Sys, me: nat, i: nat)
    requires i < NPROC && FirstZombie(s, me) >= i
    ensures FirstZombie(s, me) == i <==> s.procs[i].parent == me && s.procs[i].state == Zombie
    ensures FirstChild(s, me) >= i ==> (FirstChild(s, me) == i <==> s.procs[i].parent == me)
  {
    var z := (p: Proc) => p.parent == me && p.state == Zombie;
    var c := (p: Proc) => p.parent == me;
    if z(s.procs[i]) {
      assert FirstZombie(s, me) <= i;
    }
    if c(s.procs[i]) {
      assert FirstChild(s, me) <= i;
    }
  }

  /** A slot not visited yet is as it was at the start of the scan. */
  lemma Unvisited(policy: Policy, s: Sys, l0: Locals, i: nat, r: Sys, l: Locals, seen: Seen, renewed: set<nat>,
                  queue: map<nat, nat>)
    requires i < NPROC && ScanAt(policy, s, l0, i, r, l, seen, renewed, queue)
    requires Inv(policy, s)
    ensures r == s.(procs := Scanned(s.procs, renewed, queue))
    ensures var v := Visit(l0.t, i);
            && r.procs[v] == s.procs[v]
            && (s.procs[v].state == Runnable ==>
                  && 0 <= s.procs[v].rtime && 0 <= s.procs[v].qvalue && s.procs[v].ctime <= s.ticks)
  {
    var v := Visit(l0.t, i);
    VisitsOnce(l0.t, i, v);
    assert ProcOk(policy, s, v);
  }

  lemma NothingSeen(policy: Policy, s: Sys, l: Locals)
    requires LocalsOk(l)
    ensures ScanAt(policy, s, l, 0, s, l, Seen(false, false, false, 0, 0), {}, map[])
  {
    hide Inv, LocalsOk, Ratio, FirstLow, Turn, InLow, InFrr, InGrt;
    SeenNothing(policy, s.procs, l.t, s.ticks, l.high, l.medium, l.head);
    assert Scanned(s.procs, {}, map[]) == s.procs;
    assert Paced(l.t, 0, l.t, {}, map[]);
    hide GrtSeen, FrrSeen, LowSeen, Paced, Scanned;
  }

  lemma SeenNothing(policy: Policy, procs: Procs, t: nat, now: nat, high: nat, medium: nat, head: nat)
    ensures GrtSeen(policy, procs, t, now, 0, 0, false, high) && FrrSeen(policy, procs, t, 0, 0, false, medium)
    ensures LowSeen(policy, procs, t, 0, false, head, head) && Noted(policy, procs, now, t, 0, {}, map[])
  {
  }

  /** At the top of a visit the pointer may have to go back to the first slot. */
  lemma ScanPointer(policy: Policy, s: Sys, l0: Locals, i: nat, r: Sys, l: Locals, seen: Seen, renewed: set<nat>,
                    queue: map<nat, nat>)
    requires i < NPROC && ScanAt(policy, s, l0, i, r, l, seen, renewed, queue)
    ensures var k := if l.t >= NPROC then l.(t := 0) else l;
            ScanAt(policy, s, l0, i, r, k, seen, renewed, queue) && k.t == Visit(l0.t, i)
  {
  }

  lemma NotLooked(policy: Policy, s: Sys, l0: Locals, i: nat, r: Sys, l: Locals, seen: Seen, renewed: set<nat>,
                  queue: map<nat, nat>)
    requires i < NPROC && ScanAt(policy, s, l0, i, r, l, seen, renewed, queue) && l.t == Visit(l0.t, i)
    requires r.procs[l.t].state != Runnable && Inv(policy, s)
    ensures ScanAt(policy, s, l0, i + 1, r, l.(t := l.t + 1), seen, renewed, queue)
  {
    Unvisited(policy, s, l0, i, r, l, seen, renewed, queue);
    ScanNext(policy, s, l0, i, r, l, seen, renewed, queue, l, seen, renewed, queue);
  }

  /** What a visit must do for the scan to be right one visit further on. */
  lemma ScanNext(policy: Policy, s: Sys, l0: Locals, i: nat, r: Sys, l: Locals, seen: Seen, renewed: set<nat>,
                 queue: map<nat, nat>,
                 l': Locals, seen': Seen, renewed': set<nat>, queue': map<nat, nat>)
    requires i < NPROC && ScanAt(policy, s, l0, i, r, l, seen, renewed, queue) && l.t == Visit(l0.t, i)
    requires renewed' <= renewed + {l.t} && queue'.Keys <= queue.Keys + {l.t} && l'.t == l.t && l'.p == l.p
    requires GrtUpdate(policy, s.procs[l.t], s.ticks, l.t, seen.grtMin, seen.highflag, l.high, seen'.grtMin,
                       seen'.highflag, l'.high)
    requires FrrUpdate(policy, s.procs[l.t], l.t, seen.frrMin, seen.mediumflag, l.medium, seen'.frrMin,
                       seen'.mediumflag, l'.medium)
    requires LowUpdate(policy, s.procs[l.t], l.t, seen.lowflag, l.head, seen'.lowflag, l'.head)
    requires NoteUpdate(policy, s.procs[l.t], s.ticks, l.t, seen.lowflag, renewed, queue, renewed', queue')
    ensures ScanAt(policy, s, l0, i + 1, s.(procs := Scanned(s.procs, renewed', queue')),
                   l'.(t := l.t + 1), seen', renewed', queue')
  {
    hide GrtSeen, FrrSeen, LowSeen, Visit, Turn, Paced, Scanned, LocalsOk, GrtUpdate, FrrUpdate, LowUpdate, Noted,
      NoteUpdate;
    NotedNext(policy, s.procs, s.ticks, l0.t, i, l.t, seen.lowflag, l.head, l0.head, renewed, queue, renewed', queue');
    PacedNext(l0.t, i, l.t, renewed, queue, renewed', queue');
    GrtNext(policy, s.procs, l0.t, s.ticks, i, l.t, seen.grtMin, seen.highflag, l.high, seen'.grtMin, seen'.highflag,
            l'.high);
    FrrNext(policy, s.procs, l0.t, i, l.t, seen.frrMin, seen.mediumflag, l.medium, seen'.frrMin, seen'.mediumflag,
            l'.medium);
    LowNext(policy, s.procs, l0.t, i, l.t, seen.lowflag, l.head, l0.head, seen'.lowflag, l'.head);
    LocalsNext(policy, s.procs[l.t], s.ticks, l, seen, l', seen');
  }

  lemma LocalsNext(policy: Policy, p: Proc, now: nat, l: Locals, seen: Seen, l': Locals, seen': Seen)
    requires LocalsOk(l) && l.t < NPROC && l'.p == l.p
    requires GrtUpdate(policy, p, now, l.t, seen.grtMin, seen.highflag, l.high, seen'.grtMin, seen'.highflag, l'.high)
    requires FrrUpdate(policy, p, l.t, seen.frrMin, seen.mediumflag, l.medium, seen'.frrMin, seen'.mediumflag,
                       l'.medium)
    requires LowUpdate(policy, p, l.t, seen.lowflag, l.head, seen'.lowflag, l'.head)
    ensures LocalsOk(l'.(t := l.t + 1))
  {
  }

  lemma HeadIs(policy: Policy, s: Sys, l0: Locals, l: Locals, seen: Seen)
    requires LowSeen(policy, s.procs, l0.t, NPROC, seen.lowflag, l.head, l0.head)
    ensures var m := LowMembers(policy, s.procs, l0.t, NPROC); l.head == if m != [] then m[0] else l0.head
  {
  }

  lemma EndOfRound(policy: Policy, procs: Procs, now: nat, l: Locals, r: Locals, c: nat)
    requires var s := Started(l);
             var low := LowMembers(policy, procs, s.t, NPROC);
             && c == Choice(policy, procs, s.t, now) && r.head == (if low != [] then low[0] else s.head)
    requires c < NPROC ==> r.p == c
    ensures RoundEnds(policy, procs, now, l, r, c)
  {
    hide Choice, LowMembers;
  }

  lemma DispatchFollows(policy: Policy, s: Sys, i: nat)
    requires s.current == NPROC && i < NPROC && s.procs[i].state == Runnable
    ensures Follows(policy, s, Dispatch(i), Dispatched(s, i))
  {
  }

  lemma RrStarts(procs: Procs, t: nat)
    ensures Paced(t, 0, t, {}, map[]) && RrMembers(procs, t, 0) == []
  {
  }

  lemma RrEnds(procs: Procs, t: nat)
    requires RrMembers(procs, t, NPROC) == []
    ensures RrChoice(procs, t) == NPROC
  {
  }

  lemma RrScanned(procs: Procs, v: nat)
    requires v < NPROC
    ensures Scanned(procs, {v}, map[]) == procs[v := procs[v].(quanta := QUANTA)]
  {
  }
}
