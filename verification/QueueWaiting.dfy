/** How long a process waits in the queue of FRR, or of class MEDIUM of 3Q, while no sleeper that is
    ahead of it wakes up. */
module QueueWaiting {
  import opened Basics
  import opened ProcTable
  import opened ProcSteps
  import opened Scheduling

  predicate Queueing(policy: Policy, p: Proc) {
    p.state == Runnable && InFrr(policy, p)
  }

  /** Those that may be taken before x, which entered the queue at tick q. */
  ghost function Ahead(policy: Policy, s: Sys, x: nat, q: int): set<nat> {
    set v: nat | v < NPROC && v != x && Queueing(policy, s.procs[v]) && s.procs[v].qvalue <= q
  }

  /** A step of the kernel during which nobody who is asleep comes in ahead of q, scans leave the queue
      alone, and only the choice of a scan is dispatched. */
  ghost predicate Calm(policy: Policy, s: Sys, e: Event, r: Sys, q: int) {
    && Follows(policy, s, e, r)
    && (forall v :: 0 <= v < NPROC && s.procs[v].state == Sleeping && Queueing(policy, r.procs[v]) ==>
          r.procs[v].qvalue > q)
    && (e.Scan? ==> forall v :: v in e.queue && v < NPROC ==> !Queueing(policy, s.procs[v]))
    && (e.Dispatch? ==> exists t :: Choice(policy, s.procs, t, s.ticks) == e.i)
  }

  /** x is in the queue since tick q, that tick is over, and no value in the queue is 0, which the scan
      takes for unset. */
  ghost predicate InQueue(policy: Policy, s: Sys, x: nat, q: int)
    requires x < NPROC
  {
    && Queueing(policy, s.procs[x]) && s.procs[x].qvalue == q < s.ticks
    && forall v :: 0 <= v < NPROC && Queueing(policy, s.procs[v]) ==> s.procs[v].qvalue > 0
  }

  /** From the queue the scan takes nobody who has entered it after x. */
  lemma ChoiceNotLater(policy: Policy, s: Sys, t: nat, x: nat, q: int)
    requires x < NPROC && InQueue(policy, s, x, q)
    ensures var c := Choice(policy, s.procs, t, s.ticks);
            c < NPROC && InFrr(policy, s.procs[c]) ==> Queueing(policy, s.procs[c]) && s.procs[c].qvalue <= q
  {
    var procs := s.procs;
    var in_grt, in_frr := (p: Proc) => InGrt(policy, p), (p: Proc) => InFrr(policy, p);
    var g, f := GrtMembers(policy, procs, t, NPROC), FrrMembers(policy, procs, t, NPROC);
    MembersAre(procs, t, NPROC, in_frr, x);
    if g != [] {
      var c := g[Pick(Ratios(procs, g, s.ticks)).0];
      MembersAre(procs, t, NPROC, in_grt, c);
    } else {
      var vals := Queue(procs, f);
      PickLeast(vals);
      forall k | 0 <= k < |f| ensures vals[k] != 0 && Queueing(policy, procs[f[k]]) {
        MembersAre(procs, t, NPROC, in_frr, f[k]);
      }
      var j :| 0 <= j < |f| && f[j] == x;
      assert vals[Pick(vals).0] <= vals[j];
    }
  }

  /** A calm step puts nobody ahead of x; a dispatch from the queue takes somebody away. */
  lemma AheadStep(policy: Policy, s: Sys, e: Event, r: Sys, x: nat, q: int)
    requires policy == FRR || policy == ThreeQ
    requires x < NPROC && InQueue(policy, s, x, q) && Calm(policy, s, e, r, q)
    ensures Ahead(policy, r, x, q) <= Ahead(policy, s, x, q)
    ensures e.Dispatch? && e.i != x && InFrr(policy, s.procs[e.i]) ==>
              e.i in Ahead(policy, s, x, q) && e.i !in Ahead(policy, r, x, q)
  {
    forall v: nat | v < NPROC && v != x && Queueing(policy, r.procs[v]) && r.procs[v].qvalue <= q
      ensures Queueing(policy, s.procs[v]) && s.procs[v].qvalue <= q
    {
      NotNew(policy, s, e, r, q, v);
    }
    hide InQueue;
    if e.Dispatch? {
      var t :| Choice(policy, s.procs, t, s.ticks) == e.i;
      ChoiceNotLater(policy, s, t, x, q);
    }
  }

  /** Whoever queues ahead of q after the step did so before. */
  lemma NotNew(policy: Policy, s: Sys, e: Event, r: Sys, q: int, v: nat)
    requires policy == FRR || policy == ThreeQ
    requires Calm(policy, s, e, r, q) && q < s.ticks
    requires v < NPROC && Queueing(policy, r.procs[v]) && r.procs[v].qvalue <= q
    ensures Queueing(policy, s.procs[v]) && s.procs[v].qvalue <= q
  {
    hide Choice;
    match e
    case Exit =>
      ExitedIs(s, v);
      hide Exited;
    case Tick(user) =>
      TickedAt(policy, s, user, r, v);
      hide Ticked;
    case Wait =>
      WaitedAt(s, v);
      hide Waited;
    case _ =>
      hide Exited, Ticked, Waited, Yielded;
  }

  lemma WaitedAt(s: Sys, v: nat)
    requires s.current < NPROC && v < NPROC
    ensures Waited(s).procs[v].state == Runnable ==> Waited(s).procs[v] == s.procs[v]
  {
    hide FirstZombie, FirstChild;
  }

  /** What a timer trap does to the queue value of another process. */
  lemma TickedAt(policy: Policy, s: Sys, user: bool, r: Sys, v: nat)
    requires v < NPROC && Ticked(policy, s, user) == Goes(r) && Queueing(policy, r.procs[v])
    requires policy == FRR || policy == ThreeQ
    ensures r.procs[v].qvalue > s.ticks || s.procs[v].state == Sleeping ||
            (Queueing(policy, s.procs[v]) && r.procs[v].qvalue == s.procs[v].qvalue)
  {
    var a := Counted(s);
    if a.current < NPROC && a.procs[a.current].killed && user && a.current != INIT {
      ExitedIs(a, v);
    }
    hide Exited;
  }

  /** In how many of the first n steps somebody was dispatched from the queue. */
  ghost function QueueDispatches(policy: Policy, states: seq<Sys>, events: seq<Event>, n: nat): (c: nat)
    requires n <= |events| < |states|
  {
    if n == 0 then 0
    else QueueDispatches(policy, states, events, n - 1) +
         (if events[n - 1].Dispatch? && events[n - 1].i < NPROC && InFrr(policy, states[n - 1].procs[events[n - 1].i])
          then 1 else 0)
  }

  /** While x stays in the queue and is never chosen, and the steps are calm, fewer than NPROC dispatches
      are made from the queue. */
  lemma QueueNoStarvation(policy: Policy, states: seq<Sys>, events: seq<Event>, x: nat, q: int)
    requires policy == FRR || policy == ThreeQ
    requires |states| == |events| + 1 && x < NPROC
    requires forall k :: 0 <= k < |events| ==> Calm(policy, states[k], events[k], states[k + 1], q)
    requires forall k :: 0 <= k < |events| ==> InQueue(policy, states[k], x, q) && events[k] != Dispatch(x)
    ensures QueueDispatches(policy, states, events, |events|) < NPROC
  {
    FewerAhead(policy, states, events, x, q, |events|);
    var slots := seq(NPROC, i requires 0 <= i < NPROC => i as nat);
    SizeAtMost(slots);
    assert slots[x] == x;
    forall v | v in Ahead(policy, states[0], x, q) ensures v in Elements(slots) - {x} {
      assert slots[v] == v;
    }
    SubsetSize(Ahead(policy, states[0], x, q), Elements(slots) - {x});
  }

  lemma {:induction false} FewerAhead(policy: Policy, states: seq<Sys>, events: seq<Event>, x: nat, q: int, n: nat)
    requires policy == FRR || policy == ThreeQ
    requires |states| == |events| + 1 && x < NPROC && n <= |events|
    requires forall k :: 0 <= k < |events| ==> Calm(policy, states[k], events[k], states[k + 1], q)
    requires forall k :: 0 <= k < |events| ==> InQueue(policy, states[k], x, q) && events[k] != Dispatch(x)
    ensures QueueDispatches(policy, states, events, n) + |Ahead(policy, states[n], x, q)|
            <= |Ahead(policy, states[0], x, q)|
  {
    hide Ahead, Calm, InQueue;
    if n > 0 {
      FewerAhead(policy, states, events, x, q, n - 1);
      var s, e, r := states[n - 1], events[n - 1], states[n - 1 + 1];
      assert Calm(policy, s, e, r, q) && InQueue(policy, s, x, q);
      AheadStep(policy, s, e, r, x, q);
      SubsetSize(Ahead(policy, r, x, q), Ahead(policy, s, x, q));
    }
  }
}
