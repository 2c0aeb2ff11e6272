/** The scan of the scheduler of proc.c: whom it visits, whom it picks, how long LOW processes wait. */
module Scheduling {
  import opened ProcTable

  /** A null pointer; head itself may also point one past the table, at NPROC. */
  const NULL: nat := NPROC + 1

  // ----- the order of visits -----

  /** The slot of round i of a scan that starts with its pointer at t. */
  function Visit(t: nat, i: nat): (v: nat)
    requires i < NPROC
    ensures v < NPROC
  {
    var b := if t >= NPROC then 0 else t;
    if b + i < NPROC then b + i else b + i - NPROC
  }

  /** In which round slot v is visited. */
  function Turn(t: nat, v: nat): (i: nat)
    requires v < NPROC
    ensures i < NPROC
  {
    var b := if t >= NPROC then 0 else t;
    if b <= v then v - b else v + NPROC - b
  }

  /** Each slot is visited exactly once. */
  lemma VisitsOnce(t: nat, i: nat, v: nat)
    requires i < NPROC && v < NPROC
    ensures Visit(t, i) == v <==> i == Turn(t, v)
  {
  }

  /** The runnable processes that satisfy f, in the order of the first i visits. */
  ghost function Members(procs: Procs, t: nat, i: nat, f: Proc -> bool): (m: seq<nat>)
    requires i <= NPROC
    ensures |m| <= i && forall k :: 0 <= k < |m| ==> m[k] < NPROC
  {
    if i == 0 then [] else
      var v := Visit(t, i - 1);
      if procs[v].state == Runnable && f(procs[v]) then Members(procs, t, i - 1, f) + [v]
      else Members(procs, t, i - 1, f)
  }

  /** They are all of them. */
  lemma {:induction false} MembersAre(procs: Procs, t: nat, i: nat, f: Proc -> bool, v: nat)
    requires i <= NPROC && v < NPROC
    ensures v in Members(procs, t, i, f) <==> procs[v].state == Runnable && f(procs[v]) && Turn(t, v) < i
  {
    if i > 0 {
      MembersAre(procs, t, i - 1, f, v);
      VisitsOnce(t, i - 1, v);
    }
  }

  /** And the first one is the one whose turn comes first. */
  lemma {:induction false} FirstMember(procs: Procs, t: nat, i: nat, f: Proc -> bool, v: nat)
    requires i <= NPROC && v in Members(procs, t, i, f)
    ensures Members(procs, t, i, f) != [] && v < NPROC
    ensures Turn(t, Members(procs, t, i, f)[0]) <= Turn(t, v)
  {
    if i > 0 {
      VisitsOnce(t, i - 1, Visit(t, i - 1));
      if v in Members(procs, t, i - 1, f) {
        FirstMember(procs, t, i - 1, f, v);
      } else if Members(procs, t, i - 1, f) != [] {
        MembersAre(procs, t, i - 1, f, Members(procs, t, i - 1, f)[0]);
      }
    }
  }

  // ----- the minimum that takes 0 for unset -----

  /** Index and value that the scan holds after these values. */
  function Pick(vals: seq<nat>): (r: (nat, nat))
    ensures vals != [] ==> r.0 < |vals| && r.1 == vals[r.0]
    ensures vals == [] ==> r.1 == 0
  {
    if vals == [] then (0, 0)
    else
      var (k, least) := Pick(vals[..|vals| - 1]);
      var last := vals[|vals| - 1];
      if least == 0 || last < least then (|vals| - 1, last) else (k, least)
  }

  /** What is picked is the least value of those behind the last 0, or that 0 if it comes last. */
  lemma {:induction false} PickAfterZero(vals: seq<nat>)
    requires vals != []
    ensures vals[Pick(vals).0] == 0 <==> vals[|vals| - 1] == 0
    ensures vals[|vals| - 1] != 0 ==>
              forall j :: 0 <= j < |vals| && (forall k :: j <= k < |vals| ==> vals[k] != 0) ==>
                vals[Pick(vals).0] <= vals[j]
  {
    var init := vals[..|vals| - 1];
    if init != [] {
      PickAfterZero(init);
      forall j | 0 <= j < |vals| && (forall k :: j <= k < |vals| ==> vals[k] != 0)
        ensures vals[Pick(vals).0] <= vals[j]
      {
        if j < |init| {
          assert forall k :: j <= k < |init| ==> init[k] == vals[k];
          assert init[|init| - 1] != 0;
          assert init[Pick(init).0] <= init[j];
        }
      }
    }
  }

  /** So it is the least of all just when there is no 0 among them or the last of them is 0. */
  lemma PickLeast(vals: seq<nat>)
    requires vals != []
    ensures (forall j :: 0 <= j < |vals| ==> vals[Pick(vals).0] <= vals[j]) <==>
            (0 !in vals || vals[|vals| - 1] == 0)
  {
    PickAfterZero(vals);
    if 0 in vals && vals[|vals| - 1] != 0 {
      var j :| 0 <= j < |vals| && vals[j] == 0;
      assert vals[Pick(vals).0] > vals[j];
    } else if 0 !in vals {
      forall j | 0 <= j < |vals| ensures vals[Pick(vals).0] <= vals[j] {
        assert forall k :: j <= k < |vals| ==> vals[k] in vals;
      }
    }
  }

  /** Two processes, the one with less to its name visited first: the other one is picked. */
  lemma PickMissesZero()
    ensures Pick([0, 7]) == (1, 7)
  {
    assert [0, 7][..1] == [0] && [0][..0] == [];
  }

  // ----- the classes -----

  /** Judged by running time over lifetime; by place in the queue; by order of visit. */
  predicate InGrt(policy: Policy, p: Proc) {
    policy == GRT || (policy == ThreeQ && (p.priority == HIGH || p.priority == 0))
  }

  predicate InFrr(policy: Policy, p: Proc) {
    policy == FRR || (policy == ThreeQ && p.priority == MEDIUM)
  }

  predicate InLow(policy: Policy, p: Proc) {
    policy == ThreeQ && p.priority == LOW
  }

  ghost function GrtMembers(policy: Policy, procs: Procs, t: nat, i: nat): (m: seq<nat>)
    requires i <= NPROC
    ensures forall k :: 0 <= k < |m| ==> m[k] < NPROC
  {
    Members(procs, t, i, (p: Proc) => InGrt(policy, p))
  }

  ghost function FrrMembers(policy: Policy, procs: Procs, t: nat, i: nat): (m: seq<nat>)
    requires i <= NPROC
    ensures forall k :: 0 <= k < |m| ==> m[k] < NPROC
  {
    Members(procs, t, i, (p: Proc) => InFrr(policy, p))
  }

  ghost function LowMembers(policy: Policy, procs: Procs, t: nat, i: nat): (m: seq<nat>)
    requires i <= NPROC
    ensures forall k :: 0 <= k < |m| ==> m[k] < NPROC
  {
    Members(procs, t, i, (p: Proc) => InLow(policy, p))
  }

  /** rtime / (now - ctime), or the old qvalue for a process created in this very tick. */
  function Ratio(p: Proc, now: nat): (q: nat) {
    if p.ctime < now && 0 <= p.rtime then p.rtime / (now - p.ctime) else if 0 <= p.qvalue then p.qvalue else 0
  }

  function Queued(p: Proc): (q: nat) {
    if 0 <= p.qvalue then p.qvalue else 0
  }

  function Ratios(procs: Procs, m: seq<nat>, now: nat): (v: seq<nat>)
    requires forall k :: 0 <= k < |m| ==> m[k] < NPROC
    ensures |v| == |m| && forall k :: 0 <= k < |m| ==> v[k] == Ratio(procs[m[k]], now)
  {
    seq(|m|, k requires 0 <= k < |m| => Ratio(procs[m[k]], now))
  }

  function Queue(procs: Procs, m: seq<nat>): (v: seq<nat>)
    requires forall k :: 0 <= k < |m| ==> m[k] < NPROC
    ensures |v| == |m| && forall k :: 0 <= k < |m| ==> v[k] == Queued(procs[m[k]])
  {
    seq(|m|, k requires 0 <= k < |m| => Queued(procs[m[k]]))
  }

  /** Whom a scan from t chooses, NPROC for nobody. */
  ghost function Choice(policy: Policy, procs: Procs, t: nat, now: nat): (c: nat)
    ensures c <= NPROC
  {
    var g, f, l := GrtMembers(policy, procs, t, NPROC), FrrMembers(policy, procs, t, NPROC),
                   LowMembers(policy, procs, t, NPROC);
    if g != [] then g[Pick(Ratios(procs, g, now)).0]
    else if f != [] then f[Pick(Queue(procs, f)).0]
    else if l != [] then l[0]
    else NPROC
  }

  predicate IsHigh(p: Proc) {
    p.state == Runnable && (p.priority == HIGH || p.priority == 0)
  }

  predicate IsMedium(p: Proc) {
    p.state == Runnable && p.priority == MEDIUM
  }

  predicate IsLow(p: Proc) {
    p.state == Runnable && p.priority == LOW
  }

  /** Under 3Q the choice is HIGH or 0 if anybody is, else MEDIUM if anybody is, else LOW if anybody is. */
  lemma HighestClass(procs: Procs, t: nat, now: nat)
    ensures var c := Choice(ThreeQ, procs, t, now);
            && ((exists v :: 0 <= v < NPROC && IsHigh(procs[v])) ==> c < NPROC && IsHigh(procs[c]))
            && (!(exists v :: 0 <= v < NPROC && IsHigh(procs[v]))
                && (exists v :: 0 <= v < NPROC && IsMedium(procs[v])) ==>
                  c < NPROC && IsMedium(procs[c]))
            && (!(exists v :: 0 <= v < NPROC && (IsHigh(procs[v]) || IsMedium(procs[v])))
                && (exists v :: 0 <= v < NPROC && IsLow(procs[v])) ==>
                  c < NPROC && IsLow(procs[c]))
            && (c == NPROC ==> forall v :: 0 <= v < NPROC ==>
                !IsHigh(procs[v]) && !IsMedium(procs[v]) && !IsLow(procs[v]))
  {
    forall v | 0 <= v < NPROC
      ensures IsHigh(procs[v]) <==> v in GrtMembers(ThreeQ, procs, t, NPROC)
      ensures IsMedium(procs[v]) <==> v in FrrMembers(ThreeQ, procs, t, NPROC)
      ensures IsLow(procs[v]) <==> v in LowMembers(ThreeQ, procs, t, NPROC)
    {
      MembersAre(procs, t, NPROC, (p: Proc) => InGrt(ThreeQ, p), v);
      MembersAre(procs, t, NPROC, (p: Proc) => InFrr(ThreeQ, p), v);
      MembersAre(procs, t, NPROC, (p: Proc) => InLow(ThreeQ, p), v);
    }
    hide GrtMembers, FrrMembers, LowMembers, IsHigh, IsMedium, IsLow;
  }

  /** The locals of scheduler() that outlive a round, and are never set before the first. */
  datatype Locals = Locals(head: nat, t: nat, p: nat, medium: nat, high: nat)

  ghost predicate LocalsOk(l: Locals) {
    && (l.head <= NPROC || l.head == NULL)
    && (l.p < NPROC || l.p == NULL) && (l.medium < NPROC || l.medium == NULL) && (l.high < NPROC || l.high == NULL)
  }

  // ----- one scan, round by round -----

  /** The flags and minima of one scan. */
  datatype Seen = Seen(highflag: bool, mediumflag: bool, lowflag: bool, frrMin: int, grtMin: int)

  lemma PickNext(vals: seq<nat>, x: nat)
    ensures var (k, least) := Pick(vals);
            Pick(vals + [x]) == if least == 0 || x < least then (|vals|, x) else (k, least)
  {
    assert (vals + [x])[..|vals|] == vals;
  }

  /** After i visits from t: what each class has come to. */
  ghost predicate GrtSeen(policy: Policy, procs: Procs, t: nat, now: nat, i: nat, least: int, flag: bool, high: nat)
    requires i <= NPROC
  {
    var m := GrtMembers(policy, procs, t, i);
    && least == Pick(Ratios(procs, m, now)).1
    && (m != [] ==> high == m[Pick(Ratios(procs, m, now)).0])
    && (policy == ThreeQ ==> (flag <==> m != []))
  }

  ghost predicate FrrSeen(policy: Policy, procs: Procs, t: nat, i: nat, least: int, flag: bool, medium: nat)
    requires i <= NPROC
  {
    var m := FrrMembers(policy, procs, t, i);
    && least == Pick(Queue(procs, m)).1
    && (m != [] ==> medium == m[Pick(Queue(procs, m)).0])
    && (policy == ThreeQ ==> (flag <==> m != []))
  }

  ghost predicate LowSeen(policy: Policy, procs: Procs, t: nat, i: nat, flag: bool, head: nat, head0: nat)
    requires i <= NPROC
  {
    var m := LowMembers(policy, procs, t, i);
    (flag <==> m != []) && head == if m != [] then m[0] else head0
  }

  lemma RatiosNext(procs: Procs, m: seq<nat>, v: nat, now: nat)
    requires v < NPROC && forall k :: 0 <= k < |m| ==> m[k] < NPROC
    ensures Ratios(procs, m + [v], now) == Ratios(procs, m, now) + [Ratio(procs[v], now)]
  {
  }

  lemma QueueNext(procs: Procs, m: seq<nat>, v: nat)
    requires v < NPROC && forall k :: 0 <= k < |m| ==> m[k] < NPROC
    ensures Queue(procs, m + [v]) == Queue(procs, m) + [Queued(procs[v])]
  {
  }

  /** One visit's part for each class: process p in slot v. */
  predicate GrtUpdate(policy: Policy, p: Proc, now: nat, v: nat, least: int, flag: bool, high: nat, least': int,
                      flag': bool, high': nat) {
    if p.state == Runnable && InGrt(policy, p) then
      && least' == (if least == 0 || Ratio(p, now) < least then Ratio(p, now) else least)
      && high' == (if least == 0 || Ratio(p, now) < least then v else high)
      && flag' == (policy == ThreeQ || flag)
    else least' == least && flag' == flag && high' == high
  }

  predicate FrrUpdate(policy: Policy, p: Proc, v: nat, least: int, flag: bool, medium: nat, least': int, flag': bool,
                      medium': nat) {
    if p.state == Runnable && InFrr(policy, p) then
      && least' == (if least == 0 || Queued(p) < least then Queued(p) else least)
      && medium' == (if least == 0 || Queued(p) < least then v else medium)
      && flag' == (policy == ThreeQ || flag)
    else least' == least && flag' == flag && medium' == medium
  }

  predicate LowUpdate(policy: Policy, p: Proc, v: nat, flag: bool, head: nat, flag': bool, head': nat) {
    if p.state == Runnable && InLow(policy, p) && !flag then flag' && head' == v else flag' == flag && head' == head
  }

  lemma GrtNext(policy: Policy, procs: Procs, t: nat, now: nat, i: nat, v: nat,
                least: int, flag: bool, high: nat, least': int, flag': bool, high': nat)
    requires i < NPROC && GrtSeen(policy, procs, t, now, i, least, flag, high) && v == Visit(t, i)
    requires GrtUpdate(policy, procs[v], now, v, least, flag, high, least', flag', high')
    ensures GrtSeen(policy, procs, t, now, i + 1, least', flag', high')
  {
    hide Ratios, Ratio, Pick;
    var m := GrtMembers(policy, procs, t, i);
    PickNext(Ratios(procs, m, now), Ratio(procs[v], now));
    if procs[v].state == Runnable && InGrt(policy, procs[v]) {
      assert GrtMembers(policy, procs, t, i + 1) == m + [v];
      RatiosNext(procs, m, v, now);
    }
  }

  lemma FrrNext(policy: Policy, procs: Procs, t: nat, i: nat, v: nat,
                least: int, flag: bool, medium: nat, least': int, flag': bool, medium': nat)
    requires i < NPROC && FrrSeen(policy, procs, t, i, least, flag, medium) && v == Visit(t, i)
    requires FrrUpdate(policy, procs[v], v, least, flag, medium, least', flag', medium')
    ensures FrrSeen(policy, procs, t, i + 1, least', flag', medium')
  {
    hide Queue, Queued, Pick;
    var m := FrrMembers(policy, procs, t, i);
    PickNext(Queue(procs, m), Queued(procs[v]));
    if procs[v].state == Runnable && InFrr(policy, procs[v]) {
      assert FrrMembers(policy, procs, t, i + 1) == m + [v];
      QueueNext(procs, m, v);
    }
  }

  lemma LowNext(policy: Policy, procs: Procs, t: nat, i: nat, v: nat, flag: bool, head: nat, head0: nat, flag': bool,
                head': nat)
    requires i < NPROC && LowSeen(policy, procs, t, i, flag, head, head0) && v == Visit(t, i)
    requires LowUpdate(policy, procs[v], v, flag, head, flag', head')
    ensures LowSeen(policy, procs, t, i + 1, flag', head', head0)
  {
  }

  /** The pointer stands, or is about to be set, where visit i is to take place; those with new quanta
      or qvalues have been visited. */
  ghost predicate Paced(t0: nat, i: nat, t: nat, renewed: set<nat>, queue: map<nat, nat>) {
    && (forall v :: v < NPROC && (v in renewed || v in queue) ==> Turn(t0, v) < i)
    && (i < NPROC ==> (if t >= NPROC then 0 else t) == Visit(t0, i))
  }

  lemma PacedNext(t0: nat, i: nat, t: nat, renewed: set<nat>, queue: map<nat, nat>, renewed': set<nat>,
                  queue': map<nat, nat>)
    requires i < NPROC && t == Visit(t0, i) && Paced(t0, i, t, renewed, queue)
    requires renewed' <= renewed + {t} && queue'.Keys <= queue.Keys + {t}
    ensures Paced(t0, i + 1, t + 1, renewed', queue')
  {
  }

  /** What a visit writes into the table: new quanta for a member of the queue and for the first LOW process,
      the ratio for those that go by it. */
  predicate NoteUpdate(policy: Policy, p: Proc, now: nat, v: nat, lowflag: bool, renewed: set<nat>,
                       queue: map<nat, nat>, renewed': set<nat>, queue': map<nat, nat>) {
    if p.state == Runnable then
      && renewed' == (if InFrr(policy, p) || (InLow(policy, p) && !lowflag) then renewed + {v} else renewed)
      && queue' == (if InGrt(policy, p) && p.ctime != now then queue[v := Ratio(p, now)] else queue)
    else renewed' == renewed && queue' == queue
  }

  lemma NoteWithin(policy: Policy, p: Proc, now: nat, v: nat, lowflag: bool, renewed: set<nat>, queue: map<nat, nat>,
                   renewed': set<nat>, queue': map<nat, nat>)
    requires NoteUpdate(policy, p, now, v, lowflag, renewed, queue, renewed', queue')
    ensures renewed' <= renewed + {v} && queue'.Keys <= queue.Keys + {v}
  {
  }

  ghost predicate FirstLow(policy: Policy, procs: Procs, t0: nat, i: nat, v: nat)
    requires i <= NPROC
  {
    var m := LowMembers(policy, procs, t0, i);
    m != [] && m[0] == v
  }

  /** What the first i visits have written. */
  ghost predicate Noted(policy: Policy, procs: Procs, now: nat, t0: nat, i: nat, renewed: set<nat>,
                        queue: map<nat, nat>)
    requires i <= NPROC
  {
    forall v :: 0 <= v < NPROC ==>
      && (v in renewed <==>
            && Turn(t0, v) < i && procs[v].state == Runnable
            && (InFrr(policy, procs[v]) || FirstLow(policy, procs, t0, i, v)))
      && (v in queue <==>
            Turn(t0, v) < i && procs[v].state == Runnable && InGrt(policy, procs[v]) && procs[v].ctime != now)
      && (v in queue ==> queue[v] == Ratio(procs[v], now))
  }

  lemma NotedNext(policy: Policy, procs: Procs, now: nat, t0: nat, i: nat, v: nat, lowflag: bool, head: nat, head0: nat,
                  renewed: set<nat>, queue: map<nat, nat>, renewed': set<nat>, queue': map<nat, nat>)
    requires i < NPROC && v == Visit(t0, i) && Noted(policy, procs, now, t0, i, renewed, queue)
    requires LowSeen(policy, procs, t0, i, lowflag, head, head0)
    requires NoteUpdate(policy, procs[v], now, v, lowflag, renewed, queue, renewed', queue')
    ensures Noted(policy, procs, now, t0, i + 1, renewed', queue')
  {
    hide LowSeen, Ratio, FirstLow, Turn, Visit, InLow, InFrr, InGrt;
    FirstLowNext(policy, procs, t0, i, v, lowflag, head, head0);
    NotFirstLow(policy, procs, t0, i, v);
    forall x | 0 <= x < NPROC ensures Turn(t0, x) < i + 1 <==> Turn(t0, x) < i || x == v {
      VisitsOnce(t0, i, x);
    }
    VisitsOnce(t0, i, v);
  }

  lemma FirstLowNext(policy: Policy, procs: Procs, t0: nat, i: nat, v: nat, lowflag: bool, head: nat, head0: nat)
    requires i < NPROC && v == Visit(t0, i) && LowSeen(policy, procs, t0, i, lowflag, head, head0)
    ensures forall x :: 0 <= x < NPROC ==>
              (FirstLow(policy, procs, t0, i + 1, x) <==>
               || FirstLow(policy, procs, t0, i, x)
               || (x == v && procs[v].state == Runnable && InLow(policy, procs[v]) && !lowflag))
  {
    var m := LowMembers(policy, procs, t0, i);
    assert LowMembers(policy, procs, t0, i + 1)
        == if procs[v].state == Runnable && InLow(policy, procs[v]) then m + [v] else m;
    assert m != [] ==> (m + [v])[0] == m[0];
    hide LowMembers;
    forall x | 0 <= x < NPROC
      ensures FirstLow(policy, procs, t0, i + 1, x)
              <==> (FirstLow(policy, procs, t0, i, x)
                    || (x == v && procs[v].state == Runnable && InLow(policy, procs[v]) && !lowflag))
    {
    }
  }

  lemma NotFirstLow(policy: Policy, procs: Procs, t0: nat, i: nat, v: nat)
    requires i < NPROC && v == Visit(t0, i)
    ensures !FirstLow(policy, procs, t0, i, v)
  {
    MembersAre(procs, t0, i, (p: Proc) => InLow(policy, p), v);
    VisitsOnce(t0, i, v);
  }

  /** Who is dispatched by queue or as LOW has new quanta. */
  lemma ChosenRenewed(policy: Policy, procs: Procs, now: nat, t0: nat, renewed: set<nat>, queue: map<nat, nat>)
    requires Noted(policy, procs, now, t0, NPROC, renewed, queue)
    ensures var c := Choice(policy, procs, t0, now); c < NPROC && !InGrt(policy, procs[c]) ==> c in renewed
  {
    var g, f, l := GrtMembers(policy, procs, t0, NPROC), FrrMembers(policy, procs, t0, NPROC),
                   LowMembers(policy, procs, t0, NPROC);
    var c := Choice(policy, procs, t0, now);
    if c < NPROC && !InGrt(policy, procs[c]) {
      MembersAre(procs, t0, NPROC, (p: Proc) => InGrt(policy, p), c);
      MembersAre(procs, t0, NPROC, (p: Proc) => InFrr(policy, p), c);
      MembersAre(procs, t0, NPROC, (p: Proc) => InLow(policy, p), c);
    }
  }

  /** The three together; only processes already visited have new quanta or qvalues. */
  ghost predicate ScanAt(policy: Policy, s: Sys, l0: Locals, i: nat, r: Sys, l: Locals, seen: Seen,
                         renewed: set<nat>, queue: map<nat, nat>)
    requires i <= NPROC
  {
    && r == s.(procs := Scanned(s.procs, renewed, queue))
    && Paced(l0.t, i, l.t, renewed, queue) && l.p == l0.p
    && GrtSeen(policy, s.procs, l0.t, s.ticks, i, seen.grtMin, seen.highflag, l.high)
    && FrrSeen(policy, s.procs, l0.t, i, seen.frrMin, seen.mediumflag, l.medium)
    && LowSeen(policy, s.procs, l0.t, i, seen.lowflag, l.head, l0.head)
    && Noted(policy, s.procs, s.ticks, l0.t, i, renewed, queue)
    && LocalsOk(l)
  }

  // ----- whom the ratio picks -----

  /** It has had the CPU at every tick since its fork. */
  predicate Always(p: Proc, now: nat) {
    p.ctime < now && p.rtime == now - p.ctime
  }

  /** Of values that are 0 or 1, the last if that is 0, else the first of the ones behind the last 0. */
  lemma {:induction false} PickOfBits(vals: seq<nat>)
    requires vals != [] && forall j :: 0 <= j < |vals| ==> vals[j] <= 1
    ensures var k, n := Pick(vals).0, |vals|;
            if vals[n - 1] == 0 then k == n - 1
            else (forall j :: k <= j < n ==> vals[j] == 1) && (k == 0 || vals[k - 1] == 0)
  {
    var init := vals[..|vals| - 1];
    if init != [] {
      PickOfBits(init);
    }
  }

  lemma RatioBit(p: Proc, now: nat)
    requires 0 <= p.rtime <= now - p.ctime && (p.ctime == now ==> p.qvalue == 0)
    ensures Ratio(p, now) == if Always(p, now) then 1 else 0
  {
    if p.ctime < now {
      var life := now - p.ctime;
      assert p.rtime < life ==> p.rtime / life == 0;
      assert p.rtime == life ==> p.rtime / life == 1;
    }
  }

  predicate LastSpared(procs: Procs, m: seq<nat>, now: nat, k: nat)
    requires k < |m| && forall j :: 0 <= j < |m| ==> m[j] < NPROC
  {
    if !Always(procs[m[|m| - 1]], now) then k == |m| - 1
    else
      && (forall j :: k <= j < |m| ==> Always(procs[m[j]], now))
      && (k == 0 || !Always(procs[m[k - 1]], now))
  }

  /** Whom GRT dispatches, or 3Q among those that go by the ratio, in the order of the visits: the last, if
      it has not always had the CPU; if it has, the first of those that always had it behind the last that
      had not. So one that never had the CPU is passed over for one that always had it, if that one is
      visited last. */
  lemma RatioChoice(policy: Policy, procs: Procs, t: nat, now: nat)
    requires forall v :: 0 <= v < NPROC && procs[v].state == Runnable ==>
               0 <= procs[v].rtime <= now - procs[v].ctime && (procs[v].ctime == now ==> procs[v].qvalue == 0)
    requires GrtMembers(policy, procs, t, NPROC) != []
    ensures var m, c := GrtMembers(policy, procs, t, NPROC), Choice(policy, procs, t, now);
            exists k :: 0 <= k < |m| && m[k] == c && LastSpared(procs, m, now, k)
  {
    var m := GrtMembers(policy, procs, t, NPROC);
    var vals := Ratios(procs, m, now);
    forall j | 0 <= j < |m| ensures vals[j] == if Always(procs[m[j]], now) then 1 else 0 {
      MembersAre(procs, t, NPROC, (p: Proc) => InGrt(policy, p), m[j]);
      RatioBit(procs[m[j]], now);
    }
    var k := Pick(vals).0;
    assert Choice(policy, procs, t, now) == m[k];
    hide Always, Ratio, GrtMembers, Pick;
    PickOfBits(vals);
    assert LastSpared(procs, m, now, k);
  }

  /** The members are in the order of their turns. */
  lemma {:induction false} InTurns(procs: Procs, t: nat, i: nat, f: Proc -> bool, j: nat, k: nat)
    requires i <= NPROC && j < k < |Members(procs, t, i, f)|
    ensures Turn(t, Members(procs, t, i, f)[j]) < Turn(t, Members(procs, t, i, f)[k])
  {
    var m, v := Members(procs, t, i - 1, f), Visit(t, i - 1);
    VisitsOnce(t, i - 1, v);
    if k < |m| {
      InTurns(procs, t, i - 1, f, j, k);
    } else {
      assert Members(procs, t, i, f) == m + [v];
      MembersAre(procs, t, i - 1, f, m[j]);
    }
    hide Turn, Visit;
  }

  // ----- how long a LOW process waits -----

  /** head and the pointer of the scan after the first lines of a round: behind head if it ran last,
      at head otherwise. */
  function Started(l: Locals): (s: Locals)
  {
    if l.head != NULL && l.p == l.head then l.(head := l.head + 1, t := l.head + 1)
    else if l.head != NULL then l.(t := l.head)
    else l
  }

  /** The locals after a round, but for medium and high. */
  ghost predicate RoundEnds(policy: Policy, procs: Procs, now: nat, l: Locals, r: Locals, c: nat) {
    var s := Started(l);
    var low := LowMembers(policy, procs, s.t, NPROC);
    && c == Choice(policy, procs, s.t, now)
    && r.head == (if low != [] then low[0] else s.head)
    && (c < NPROC ==> r.p == c)
  }

  /** How many visits a scan that begins the next round makes before it comes to x. */
  function Wait(l: Locals, x: nat): (d: nat)
    requires x < NPROC
    ensures d < NPROC
  {
    Turn(Started(l).t, x)
  }

  /** Where the next scan of 3Q begins: behind the LOW process that was found first, if it was dispatched, and
      at it if it was not. With no LOW process it begins where this one did, or one further if the process
      that ran last is in that slot. */
  lemma ScanStarts(procs: Procs, now: nat, l: Locals, r: Locals, c: nat)
    requires LocalsOk(l) && RoundEnds(ThreeQ, procs, now, l, r, c)
    ensures var t := Started(l).t;
            var low := LowMembers(ThreeQ, procs, t, NPROC);
            && (low != [] ==> c < NPROC && Started(r).t == if c == low[0] then low[0] + 1 else low[0])
            && (low == [] && l.head != NULL ==> Started(r).t == if r.p == t then t + 1 else t)
  {
    hide LowMembers, FrrMembers, GrtMembers, Pick;
  }

  /** While x stays runnable and LOW and is not chosen, a round brings the scan no further away from
      x, and a round that dispatches another LOW process brings it nearer. */
  lemma RoundNearer(procs: Procs, now: nat, l: Locals, r: Locals, c: nat, x: nat)
    requires LocalsOk(l) && RoundEnds(ThreeQ, procs, now, l, r, c) && x < NPROC && IsLow(procs[x]) && c != x
    ensures c < NPROC && Wait(r, x) <= Wait(l, x)
    ensures IsLow(procs[c]) ==> Wait(r, x) < Wait(l, x)
  {
    var t := Started(l).t;
    var low := LowMembers(ThreeQ, procs, t, NPROC);
    HighestClass(procs, t, now);
    MembersAre(procs, t, NPROC, (p: Proc) => InLow(ThreeQ, p), x);
    FirstMember(procs, t, NPROC, (p: Proc) => InLow(ThreeQ, p), x);
    assert r.head == low[0] && low[0] in low;
    MembersAre(procs, t, NPROC, (p: Proc) => InLow(ThreeQ, p), low[0]);
    assert IsLow(procs[low[0]]);
    ChoiceIsLow(procs, t, now);
  }

  lemma ChoiceIsLow(procs: Procs, t: nat, now: nat)
    ensures var c := Choice(ThreeQ, procs, t, now);
            c < NPROC && IsLow(procs[c]) ==>
              LowMembers(ThreeQ, procs, t, NPROC) != [] && c == LowMembers(ThreeQ, procs, t, NPROC)[0]
  {
    var g, f := GrtMembers(ThreeQ, procs, t, NPROC), FrrMembers(ThreeQ, procs, t, NPROC);
    if g != [] {
      MembersAre(procs, t, NPROC, (p: Proc) => InGrt(ThreeQ, p), g[Pick(Ratios(procs, g, now)).0]);
    } else if f != [] {
      MembersAre(procs, t, NPROC, (p: Proc) => InFrr(ThreeQ, p), f[Pick(Queue(procs, f)).0]);
    }
  }

  /** One round of a run of the scheduler: the table it finds, and whom it dispatches. */
  datatype Round = Round(procs: Procs, now: nat, chosen: nat)

  ghost predicate Rounds(rounds: seq<Round>, locals: seq<Locals>) {
    |locals| == |rounds| + 1 && forall k :: 0 <= k < |rounds| ==> RoundAt(rounds[k], locals, k)
  }

  ghost predicate RoundAt(round: Round, locals: seq<Locals>, k: nat)
    requires k + 1 < |locals|
  {
    LocalsOk(locals[k]) && RoundEnds(ThreeQ, round.procs, round.now, locals[k], locals[k + 1], round.chosen)
  }

  /** In how many of the first n rounds a LOW process was dispatched. */
  ghost function LowDispatches(rounds: seq<Round>, n: nat): (c: nat)
    requires n <= |rounds|
  {
    if n == 0 then 0
    else LowDispatches(rounds, n - 1) +
         (if rounds[n - 1].chosen < NPROC && IsLow(rounds[n - 1].procs[rounds[n - 1].chosen]) then 1 else 0)
  }

  /** Whatever happens to the table between rounds, as long as x stays runnable and LOW and is never
      chosen, fewer than NPROC dispatches go to LOW processes. */
  lemma NoStarvation(rounds: seq<Round>, locals: seq<Locals>, x: nat)
    requires Rounds(rounds, locals) && x < NPROC
    requires forall k :: 0 <= k < |rounds| ==> IsLow(rounds[k].procs[x]) && rounds[k].chosen != x
    ensures LowDispatches(rounds, |rounds|) < NPROC
  {
    Nearer(rounds, locals, x, |rounds|);
  }

  lemma {:induction false} Nearer(rounds: seq<Round>, locals: seq<Locals>, x: nat, n: nat)
    requires Rounds(rounds, locals) && x < NPROC && n <= |rounds|
    requires forall k :: 0 <= k < |rounds| ==> IsLow(rounds[k].procs[x]) && rounds[k].chosen != x
    ensures LowDispatches(rounds, n) + Wait(locals[n], x) <= Wait(locals[0], x)
  {
    hide Wait, RoundAt, IsLow, LowDispatches;
    NoDispatchYet(rounds);
    if n > 0 {
      Nearer(rounds, locals, x, n - 1);
      RoundCounts(rounds, locals, x, n - 1);
    }
  }

  lemma NoDispatchYet(rounds: seq<Round>)
    ensures LowDispatches(rounds, 0) == 0
  {
  }

  lemma RoundCounts(rounds: seq<Round>, locals: seq<Locals>, x: nat, k: nat)
    requires Rounds(rounds, locals) && x < NPROC && k < |rounds|
    requires IsLow(rounds[k].procs[x]) && rounds[k].chosen != x
    ensures LowDispatches(rounds, k + 1) - LowDispatches(rounds, k) <= Wait(locals[k], x) - Wait(locals[k + 1], x)
  {
    assert RoundAt(rounds[k], locals, k);
    RoundNearer(rounds[k].procs, rounds[k].now, locals[k], locals[k + 1], rounds[k].chosen, x);
    hide RoundEnds, Wait, IsLow;
  }

  /** Under any policy but RR a runnable process is in one of the classes. */
  lemma EveryoneClassed(policy: Policy, s: Sys, t: nat, v: nat)
    requires Inv(policy, s) && policy != RR && v < NPROC && s.procs[v].state == Runnable
    ensures GrtMembers(policy, s.procs, t, NPROC) != [] || FrrMembers(policy, s.procs, t, NPROC) != [] ||
            LowMembers(policy, s.procs, t, NPROC) != []
  {
    assert ProcOk(policy, s, v);
    MembersAre(s.procs, t, NPROC, (p: Proc) => InGrt(policy, p), v);
    MembersAre(s.procs, t, NPROC, (p: Proc) => InFrr(policy, p), v);
    MembersAre(s.procs, t, NPROC, (p: Proc) => InLow(policy, p), v);
  }

  /** Whoever is chosen is runnable. */
  lemma ChoiceRunnable(policy: Policy, procs: Procs, t: nat, now: nat)
    ensures var c := Choice(policy, procs, t, now); c < NPROC ==> procs[c].state == Runnable
  {
    var g, f, l := GrtMembers(policy, procs, t, NPROC), FrrMembers(policy, procs, t, NPROC),
                   LowMembers(policy, procs, t, NPROC);
    if g != [] {
      MembersAre(procs, t, NPROC, (p: Proc) => InGrt(policy, p), g[Pick(Ratios(procs, g, now)).0]);
    } else if f != [] {
      MembersAre(procs, t, NPROC, (p: Proc) => InFrr(policy, p), f[Pick(Queue(procs, f)).0]);
    } else if l != [] {
      MembersAre(procs, t, NPROC, (p: Proc) => InLow(policy, p), l[0]);
    }
  }

  /** Choosing after the scan: p of the scheduler, and whether it runs. */
  function Chosen(policy: Policy, seen: Seen, l: Locals, procs: Procs): (p: nat) {
    match policy
    case FRR => l.medium
    case GRT => l.high
    case _ =>
      if seen.highflag && l.high != NULL then l.high
      else if seen.mediumflag && l.medium != NULL then l.medium
      else if l.head < NPROC && procs[l.head].state == Runnable then l.head
      else l.p
  }

  lemma ChosenIs(policy: Policy, s: Sys, l0: Locals, l: Locals, seen: Seen)
    requires Inv(policy, s) && policy != RR && LocalsOk(l) && l.p == l0.p
    requires GrtSeen(policy, s.procs, l0.t, s.ticks, NPROC, seen.grtMin, seen.highflag, l.high)
    requires FrrSeen(policy, s.procs, l0.t, NPROC, seen.frrMin, seen.mediumflag, l.medium)
    requires LowSeen(policy, s.procs, l0.t, NPROC, seen.lowflag, l.head, l0.head)
    ensures var p := Chosen(policy, seen, l, s.procs); var c := Choice(policy, s.procs, l0.t, s.ticks);
            && (c < NPROC ==> p == c && s.procs[c].state == Runnable)
            && (c == NPROC ==> (p < NPROC ==> s.procs[p].state != Runnable))
  {
    var procs, t, now := s.procs, l0.t, s.ticks;
    var p := Chosen(policy, seen, l, procs);
    var g, f, m := GrtMembers(policy, procs, t, NPROC), FrrMembers(policy, procs, t, NPROC),
                   LowMembers(policy, procs, t, NPROC);
    ChoiceRunnable(policy, procs, t, now);
    OtherClassesEmpty(policy, procs, t);
    if p < NPROC && procs[p].state == Runnable {
      EveryoneClassed(policy, s, t, p);
    }
  }

  lemma OtherClassesEmpty(policy: Policy, procs: Procs, t: nat)
    ensures policy == FRR ==> GrtMembers(policy, procs, t, NPROC) == [] && LowMembers(policy, procs, t, NPROC) == []
    ensures policy == GRT ==> FrrMembers(policy, procs, t, NPROC) == [] && LowMembers(policy, procs, t, NPROC) == []
  {
    var g, f, m := GrtMembers(policy, procs, t, NPROC), FrrMembers(policy, procs, t, NPROC),
                   LowMembers(policy, procs, t, NPROC);
    if g != [] {
      MembersAre(procs, t, NPROC, (p: Proc) => InGrt(policy, p), g[0]);
    }
    if f != [] {
      MembersAre(procs, t, NPROC, (p: Proc) => InFrr(policy, p), f[0]);
    }
    if m != [] {
      MembersAre(procs, t, NPROC, (p: Proc) => InLow(policy, p), m[0]);
    }
  }

  lemma ScannedRenewed(procs: Procs, renewed: set<nat>, queue: map<nat, nat>, v: nat)
    requires v < NPROC
    ensures Scanned(procs, renewed + {v}, queue)
            == Scanned(procs, renewed, queue)[v := Scanned(procs, renewed, queue)[v].(quanta := QUANTA)]
  {
  }

  lemma ScannedQueued(procs: Procs, renewed: set<nat>, queue: map<nat, nat>, v: nat, q: nat)
    requires v < NPROC
    ensures Scanned(procs, renewed, queue[v := q])
            == Scanned(procs, renewed, queue)[v := Scanned(procs, renewed, queue)[v].(qvalue := q)]
  {
  }

  // ----- RR -----

  /** Under RR whoever is found runnable first gets the CPU. */
  ghost function RrMembers(procs: Procs, t: nat, i: nat): (m: seq<nat>)
    requires i <= NPROC
    ensures forall k :: 0 <= k < |m| ==> m[k] < NPROC
  {
    Members(procs, t, i, (p: Proc) => true)
  }

  ghost function RrChoice(procs: Procs, t: nat): (c: nat)
    ensures c <= NPROC
  {
    if RrMembers(procs, t, NPROC) == [] then NPROC else RrMembers(procs, t, NPROC)[0]
  }

  lemma RrNext(procs: Procs, t: nat, i: nat)
    requires i < NPROC && RrMembers(procs, t, i) == []
    ensures if procs[Visit(t, i)].state == Runnable
            then RrMembers(procs, t, NPROC) != [] && RrChoice(procs, t) == Visit(t, i)
            else RrMembers(procs, t, i + 1) == []
  {
    var f := (p: Proc) => true;
    var v := Visit(t, i);
    VisitsOnce(t, i, v);
    if procs[v].state == Runnable {
      MembersAre(procs, t, NPROC, f, v);
      FirstMember(procs, t, NPROC, f, v);
      var c := RrMembers(procs, t, NPROC)[0];
      MembersAre(procs, t, NPROC, f, c);
      MembersAre(procs, t, i, f, c);
      assert Turn(t, c) == i;
      VisitsOnce(t, i, c);
    }
  }

  /** The pointer a dispatch leaves behind brings the next scan nearer to any x passed over. */
  lemma RrNearer(procs: Procs, t: nat, x: nat)
    requires x < NPROC && procs[x].state == Runnable && RrChoice(procs, t) != x
    ensures RrChoice(procs, t) < NPROC && Turn(RrChoice(procs, t) + 1, x) < Turn(t, x)
  {
    var f := (p: Proc) => true;
    MembersAre(procs, t, NPROC, f, x);
    FirstMember(procs, t, NPROC, f, x);
    var c := RrChoice(procs, t);
    VisitsOnce(t, Turn(t, c), c);
    VisitsOnce(t, Turn(t, x), x);
  }

  /** ts[k] is the pointer before dispatch k. */
  ghost predicate RrRounds(tables: seq<Procs>, ts: seq<nat>) {
    |ts| == |tables| + 1 && forall k :: 0 <= k < |tables| ==> RrRoundAt(tables[k], ts, k)
  }

  ghost predicate RrRoundAt(procs: Procs, ts: seq<nat>, k: nat)
    requires k + 1 < |ts|
  {
    RrChoice(procs, ts[k]) < NPROC && ts[k + 1] == RrChoice(procs, ts[k]) + 1
  }

  /** A process that stays runnable gets the CPU within NPROC dispatches. */
  lemma {:induction false} RrNoStarvation(tables: seq<Procs>, ts: seq<nat>, x: nat)
    requires RrRounds(tables, ts) && x < NPROC
    requires forall k :: 0 <= k < |tables| ==> tables[k][x].state == Runnable && RrChoice(tables[k], ts[k]) != x
    ensures |tables| + Turn(ts[|tables|], x) <= Turn(ts[0], x) < NPROC
  {
    if |tables| > 0 {
      var n := |tables| - 1;
      forall k | 0 <= k < n ensures RrRoundAt(tables[..n][k], ts[..n + 1], k) {
        assert RrRoundAt(tables[k], ts, k);
      }
      RrNoStarvation(tables[..n], ts[..n + 1], x);
      assert RrRoundAt(tables[n], ts, n);
      RrNearer(tables[n], ts[n], x);
    }
  }
}
