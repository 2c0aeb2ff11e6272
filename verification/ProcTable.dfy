/** The process table of proc.c on one CPU: what each operation of proc.c and trap.c does to it,
    and what all of them keep. Pointers into the table are indices, 0 is NPROC. */
module ProcTable {
  const NPROC: nat := 64
  const QUANTA: int := 5
  const HIGH: int := 3
  const MEDIUM: int := 2
  const LOW: int := 1
  const INIT: nat := 0        // initproc: the first slot ever given out
  const TICKS: nat := 0       // the channel &ticks

  datatype Policy = RR | FRR | GRT | ThreeQ

  datatype State = Unused | Embryo | Sleeping | Runnable | Running | Zombie

  /** What a process sleeps on: 0, a process (the channel of wait), anything else. */
  datatype Chan = Nothing | Of(p: nat) | Other(c: nat)

  datatype Proc = Proc(
    state: State, pid: int, parent: nat, chan: Chan, killed: bool,
    ctime: int, etime: int, rtime: int, quanta: int, priority: int, qvalue: int)

  const FREE: Proc := Proc(Unused, 0, NPROC, Nothing, false, 0, 0, 0, 0, 0, 0)

  type Procs = s: seq<Proc> | |s| == NPROC witness seq(NPROC, _ => FREE)

  /** current is proc; charged counts the ticks charged to it since it was dispatched. */
  datatype Sys = Sys(procs: Procs, ticks: nat, nextpid: int, current: nat, charged: nat)

  predicate Used(p: Proc) {
    p.state != Unused && p.state != Zombie
  }

  /** Asleep in wait or wait2. */
  predicate Waiting(p: Proc, i: nat) {
    p.state == Sleeping && p.chan == Of(i)
  }

  // ----- the invariant -----

  ghost predicate TimesOk(p: Proc, ticks: nat) {
    && (Used(p) ==> 0 <= p.rtime <= ticks - p.ctime)
    && (p.state == Zombie ==> 0 <= p.rtime <= p.etime - p.ctime && p.etime <= ticks)
    && p.quanta <= QUANTA && 0 <= p.qvalue
  }

  ghost predicate ProcOk(policy: Policy, s: Sys, i: nat)
    requires i < NPROC
  {
    var p := s.procs[i];
    && TimesOk(p, s.ticks) && p.state != Embryo
    && (p.state == Running <==> i == s.current)
    && (p.state == Unused ==> p.parent == NPROC) && p.parent != i
    && (p.state == Sleeping && p.chan.Of? ==> p.chan.p == i)
    && (policy == ThreeQ && Used(p) ==> 0 <= p.priority <= HIGH)
  }

  /** It has a parent, and that is neither UNUSED nor ZOMBIE. */
  ghost predicate Parented(s: Sys, i: nat)
    requires i < NPROC
  {
    s.procs[i].state != Unused && i != INIT ==> s.procs[i].parent < NPROC && Used(s.procs[s.procs[i].parent])
  }

  /** If it is a zombie then its parent is not asleep in wait. */
  ghost predicate Noticed(s: Sys, i: nat)
    requires i < NPROC
  {
    s.procs[i].state == Zombie && s.procs[i].parent < NPROC ==> !Waiting(s.procs[s.procs[i].parent], s.procs[i].parent)
  }

  ghost predicate Inv(policy: Policy, s: Sys) {
    && (forall i :: 0 <= i < NPROC ==> ProcOk(policy, s, i))
    && (forall i :: 0 <= i < NPROC ==> Parented(s, i))
    && (forall i :: 0 <= i < NPROC ==> Noticed(s, i))
    && Used(s.procs[INIT]) && s.procs[INIT].parent == NPROC
    && s.current <= NPROC
    && (s.current < NPROC ==>
          s.charged + s.procs[s.current].quanta <= QUANTA && (s.charged == 0 || s.procs[s.current].quanta > 0))
  }

  // ----- steps -----

  function Set(s: Sys, i: nat, p: Proc): (r: Sys)
    requires i < NPROC
    ensures r == s.(procs := r.procs) && forall k :: 0 <= k < NPROC ==> r.procs[k] == if k == i then p else s.procs[k]
  {
    s.(procs := s.procs[i := p])
  }

  function Wake(p: Proc, c: Chan): Proc {
    if p.state == Sleeping && p.chan == c then p.(state := Runnable) else p
  }

  /** wakeup1 */
  function Woken(procs: Procs, c: Chan): (r: Procs)
    ensures forall i :: 0 <= i < NPROC ==> r[i] == Wake(procs[i], c)
  {
    seq(NPROC, i requires 0 <= i < NPROC => Wake(procs[i], c))
  }

  function WokenUp(s: Sys, c: Chan): Sys {
    s.(procs := Woken(s.procs, c))
  }

  /** sched after the state of the current process has been set. */
  function Left(s: Sys, p: Proc): (r: Sys)
    requires s.current < NPROC
  {
    Set(s, s.current, p).(current := NPROC, charged := 0)
  }

  function Slept(s: Sys, c: Chan): Sys
    requires s.current < NPROC
  {
    Left(s, s.procs[s.current].(chan := c, state := Sleeping))
  }

  function Yielded(policy: Policy, s: Sys): Sys
    requires s.current < NPROC
  {
    var p := s.procs[s.current];
    Left(s, p.(qvalue := if policy == FRR || (policy == ThreeQ && p.priority == MEDIUM) then s.ticks else p.qvalue,
               state := Runnable))
  }

  function Adopted(p: Proc, me: nat): Proc {
    if p.parent == me then p.(parent := INIT) else p
  }

  /** exit's loop over the abandoned children. */
  function AllAdopted(procs: Procs, me: nat): (r: Procs)
    ensures forall i :: 0 <= i < NPROC ==> r[i] == Adopted(procs[i], me)
  {
    seq(NPROC, i requires 0 <= i < NPROC => Adopted(procs[i], me))
  }

  predicate HasZombie(procs: Procs, me: nat) {
    exists i :: 0 <= i < NPROC && procs[i].parent == me && procs[i].state == Zombie
  }

  /** The wakeups of exit: of the parent, and of init if it gets a zombie. */
  function Told(procs: Procs, me: nat): Procs
    requires me < NPROC
  {
    var parent := procs[me].parent;
    var woken := Woken(procs, if parent < NPROC then Of(parent) else Nothing);
    if HasZombie(procs, me) then Woken(woken, Of(INIT)) else woken
  }

  /** exit, for a process other than init. */
  function Exited(s: Sys): (r: Sys)
    requires s.current < NPROC && s.current != INIT
  {
    var me := s.current;
    var adopted := AllAdopted(Told(s.procs, me), me);
    Left(s.(procs := adopted), adopted[me].(priority := -1, etime := s.ticks, state := Zombie))
  }

  function Reaped(s: Sys, i: nat): Sys
    requires i < NPROC
  {
    Set(s, i, s.procs[i].(state := Unused, pid := 0, parent := NPROC, killed := false))
  }

  /** The first slot from i on that satisfies the test of a scan, or NPROC. */
  function First(procs: Procs, f: Proc -> bool, i: nat): (k: nat)
    requires i <= NPROC
    ensures i <= k <= NPROC && (k < NPROC ==> f(procs[k])) && forall j :: i <= j < k ==> !f(procs[j])
    decreases NPROC - i
  {
    if i == NPROC || f(procs[i]) then i else First(procs, f, i + 1)
  }

  function FirstZombie(s: Sys, me: nat): nat {
    First(s.procs, (p: Proc) => p.parent == me && p.state == Zombie, 0)
  }

  function FirstChild(s: Sys, me: nat): nat {
    First(s.procs, (p: Proc) => p.parent == me, 0)
  }

  /** One pass of wait: a zombie child goes, or it returns -1, or it sleeps. */
  function Waited(s: Sys): Sys
    requires s.current < NPROC
  {
    var me := s.current;
    if FirstZombie(s, me) < NPROC then Reaped(s, FirstZombie(s, me))
    else if FirstChild(s, me) == NPROC || s.procs[me].killed then s
    else Slept(s, Of(me))
  }

  /** The child of a fork, in the slot p. What fork does not set is what the slot held before. */
  function Child(policy: Policy, s: Sys, p: Proc): Proc {
    var q := p.(pid := s.nextpid, state := Runnable, parent := s.current, ctime := s.ticks, rtime := 0);
    match policy
    case RR => q
    case FRR => q.(qvalue := s.ticks)
    case GRT => q.(qvalue := 0)
    case ThreeQ => q.(priority := HIGH, qvalue := 0)
  }

  /** fork; memory says whether the kernel stack and the copy of the address space could be had. */
  function Forked(policy: Policy, s: Sys, memory: bool): Sys
    requires s.current < NPROC
  {
    var i := First(s.procs, (p: Proc) => p.state == Unused, 0);
    if i == NPROC then s
    else if memory then Set(s, i, Child(policy, s, s.procs[i])).(nextpid := s.nextpid + 1)
    else Set(s, i, s.procs[i].(pid := s.nextpid)).(nextpid := s.nextpid + 1)
  }

  function Killed(s: Sys, pid: int): Sys {
    var i := First(s.procs, (p: Proc) => p.pid == pid, 0);
    if i == NPROC then s
    else
      var p := s.procs[i];
      Set(s, i, p.(killed := true, state := if p.state == Sleeping then Runnable else p.state))
  }

  function Niced(s: Sys): Sys
    requires s.current < NPROC
  {
    var p := s.procs[s.current];
    if p.priority == HIGH then Set(s, s.current, p.(priority := MEDIUM, qvalue := s.ticks))
    else if p.priority == MEDIUM then Set(s, s.current, p.(priority := LOW))
    else s
  }

  /** The timer interrupt up to wakeup(&ticks). */
  function Counted(s: Sys): (r: Sys) {
    var a :=
      if s.current >= NPROC then s
      else
        var p := s.procs[s.current];
        Set(s, s.current, p.(rtime := p.rtime + 1, quanta := p.quanta - 1)).(charged := s.charged + 1);
    WokenUp(a.(ticks := s.ticks + 1), Other(TICKS))
  }

  datatype Outcome = Goes(s: Sys) | Panic

  function Exits(s: Sys): Outcome
    requires s.current < NPROC
  {
    if s.current == INIT then Panic else Goes(Exited(s))
  }

  /** The whole timer trap; user tells whether it came from user mode. */
  function Ticked(policy: Policy, s: Sys, user: bool): Outcome {
    var a := Counted(s);
    if a.current >= NPROC then Goes(a)
    else if a.procs[a.current].killed && user then Exits(a)
    else if a.procs[a.current].quanta <= 0 then Goes(Yielded(policy, a))
    else Goes(a)
  }

  /** What a scan of the scheduler may do to the processes it passes: new quanta, new qvalues. */
  function Scanned(procs: Procs, renewed: set<nat>, queue: map<nat, nat>): (r: Procs)
    ensures forall i :: 0 <= i < NPROC ==>
              r[i] == procs[i].(quanta := if i in renewed then QUANTA else procs[i].quanta,
                                qvalue := if i in queue then queue[i] else procs[i].qvalue)
  {
    seq(NPROC, i requires 0 <= i < NPROC =>
      procs[i].(quanta := if i in renewed then QUANTA else procs[i].quanta,
                qvalue := if i in queue then queue[i] else procs[i].qvalue))
  }

  /** Process i gets the CPU; when it comes out of sleep, that clears its chan. */
  function Dispatched(s: Sys, i: nat): Sys
    requires i < NPROC
  {
    Set(s, i, s.procs[i].(state := Running, chan := Nothing)).(current := i, charged := 0)
  }

  datatype Event =
    | Fork(memory: bool) | Exit | Wait | Sleep(c: nat) | Wakeup(c: nat) | Kill(pid: int) | Yield | Nice
    | Tick(user: bool)
    | Scan(renewed: set<nat>, queue: map<nat, nat>) | Dispatch(i: nat)

  /** System calls and sleep are the current process's; scans and dispatches are the scheduler's. */
  predicate Enabled(s: Sys, e: Event) {
    match e
    case Wakeup(_) => true
    case Tick(_) => true
    case Scan(_, _) => s.current == NPROC
    case Dispatch(i) => s.current == NPROC && i < NPROC && s.procs[i].state == Runnable
    case _ => s.current < NPROC
  }

  function Step(policy: Policy, s: Sys, e: Event): Outcome
    requires Enabled(s, e)
  {
    match e
    case Fork(memory) => Goes(Forked(policy, s, memory))
    case Exit => Exits(s)
    case Wait => Goes(Waited(s))
    case Sleep(c) => Goes(Slept(s, Other(c)))
    case Wakeup(c) => Goes(WokenUp(s, Other(c)))
    case Kill(pid) => Goes(Killed(s, pid))
    case Yield => Goes(Yielded(policy, s))
    case Nice => Goes(Niced(s))
    case Tick(user) => Ticked(policy, s, user)
    case Scan(renewed, queue) => Goes(s.(procs := Scanned(s.procs, renewed, queue)))
    case Dispatch(i) => Goes(Dispatched(s, i))
  }

  /** The table after userinit: init alone, runnable, its numbers all 0. */
  function Boot(): Sys {
    Sys(seq(NPROC, i requires 0 <= i < NPROC => if i == INIT then FREE.(state := Runnable, pid := 1) else FREE), 0,
        2, NPROC, 0)
  }

  ghost predicate Follows(policy: Policy, s: Sys, e: Event, r: Sys) {
    Enabled(s, e) && Step(policy, s, e) == Goes(r)
  }

  /** The states of a run from boot, one more than its events. */
  ghost predicate Run(policy: Policy, states: seq<Sys>, events: seq<Event>) {
    && |states| == |events| + 1 && states[0] == Boot()
    && forall k :: 0 <= k < |events| ==> Follows(policy, states[k], events[k], states[k + 1])
  }
}
