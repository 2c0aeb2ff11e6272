/** Transactions one after the other on the log, after a recovery or not: the disk goes through the
    images that CrashRuns reasons about. */
module LogRuns {
  import opened Basics
  import opened Blocks
  import opened RedoLog
  import opened Transactions
  import opened CrashRuns
  import opened Scripts
  import opened Recency
  import opened BufferCache
  import opened CacheAgreement
  import opened Log

  /** A transaction on the blocks h that the log and the cache have room for, and what it makes of them. */
  ghost predicate Link(h: seq<Block>, ops: seq<Op>, h': seq<Block>, start: nat, cap: nat) {
    && start <= |h| && Script(h, ops) && Scripts.Held(ops) == {} && Home(ops, start) && Roomy(ops, cap, NBUF)
    && (forall i :: 0 <= i < |Puts(ops)| ==> Puts(ops)[i].sector < |h|)
    && h' == Apply(h, Puts(ops))
  }

  /** Each transaction works on the blocks that the ones before it have left. */
  ghost predicate Chain(views: seq<seq<Block>>, txns: seq<seq<Op>>, start: nat, cap: nat) {
    && |views| == |txns| + 1 && start <= |views[0]|
    && forall j :: 0 <= j < |txns| ==> Link(views[j], txns[j], views[j + 1], start, cap)
  }

  function PutsOf(txns: seq<seq<Op>>): (r: seq<seq<Write>>)
    ensures |r| == |txns| && forall j :: 0 <= j < |txns| ==> r[j] == Puts(txns[j])
  {
    seq(|txns|, j requires 0 <= j < |txns| => Puts(txns[j]))
  }

  lemma ChainAdmissible(views: seq<seq<Block>>, txns: seq<seq<Op>>, start: nat, cap: nat)
    requires Chain(views, txns, start, cap)
    ensures AllAdmissible(PutsOf(txns), start, cap)
  {
    forall j | 0 <= j < |txns| ensures Admissible(PutsOf(txns)[j], start, cap) {
      assert Link(views[j], txns[j], views[j + 1], start, cap);
      RoomyAdmissible(views[j], txns[j], start, cap, NBUF);
    }
  }

  /** The first j transactions make the j-th of the views. */
  lemma {:induction false} ChainView(views: seq<seq<Block>>, txns: seq<seq<Op>>, start: nat, cap: nat, j: nat)
    requires Chain(views, txns, start, cap) && j <= |txns|
    ensures |views[j]| == |views[0]| && AllAdmissible(PutsOf(txns)[..j], start, cap)
    ensures views[j][..start] == ApplyAll(views[0][..start], PutsOf(txns)[..j])
  {
    hide Script, Roomy, Home, Scripts.Held, Puts, Apply;
    ChainAdmissible(views, txns, start, cap);
    if j > 0 {
      ChainView(views, txns, start, cap, j - 1);
      assert Link(views[j - 1], txns[j - 1], views[j], start, cap);
      var ws := PutsOf(txns);
      assert ws[..j] == ws[..j - 1] + [ws[j - 1]];
      ApplyAllConcat(views[0][..start], ws[..j - 1], [ws[j - 1]]);
      ApplyAllOne(views[j - 1][..start], ws[j - 1]);
      ApplyHome(views[j - 1], ws[j - 1], start);
    }
  }

  /** What the j-th transaction starts from, and where it leads. */
  lemma NextLink(views: seq<seq<Block>>, txns: seq<seq<Op>>, start: nat, cap: nat, d: Image, j: nat)
    requires Chain(views, txns, start, cap) && j < |txns|
    requires Startable(d, start, cap) && |views[0]| == |d| && views[0][..start] == d[..start]
    ensures |views| == |txns| + 1 && AllAdmissible(PutsOf(txns), start, cap)
    ensures AllAdmissible(PutsOf(txns)[..j], start, cap) && AllAdmissible(PutsOf(txns)[..j + 1], start, cap)
    ensures Admissible(Puts(txns[j]), start, cap)
    ensures var h, ops := views[j], txns[j];
            Script(h, ops) && Scripts.Held(ops) == {} && Home(ops, start) && Roomy(ops, cap, NBUF)
    ensures var ws := PutsOf(txns);
            var e := RunEnd(d, start, cap, ws[..j]);
            var t := TransactionSteps(e, start, cap, Puts(txns[j]));
            && |views[j]| == |e| && views[j][..start] == e[..start]
            && RunSteps(d, start, cap, ws[..j + 1]) == RunSteps(d, start, cap, ws[..j]) + t
            && RunEnd(d, start, cap, ws[..j + 1]) == ImageAt(e, t, |t|)
  {
    hide Script, Roomy, Home, Scripts.Held, Puts, RunSteps, RunEnd, TransactionSteps, ApplyAll, Admissible, Geometry;
    var ws := PutsOf(txns);
    ChainAdmissible(views, txns, start, cap);
    ChainView(views, txns, start, cap, j);
    assert Link(views[j], txns[j], views[j + 1], start, cap);
    assert ws[..j + 1] == ws[..j] + [ws[j]];
    RunStepsMore(d, start, cap, ws[..j], ws[j]);
  }

  /** Transactions one after the other: none panics or sleeps, and every image is one of the run. */
  method RunTransactions(log: Log, txns: seq<seq<Op>>, ghost views: seq<seq<Block>>)
    requires log.Valid() && !log.busy && NoneBusy(log.cache.Entries())
    requires Chain(views, txns, log.start, log.Cap())
    requires |views[0]| == |log.cache.disk.now.sectors|
    requires views[0][..log.start] == log.cache.disk.now.sectors[..log.start]
    modifies log, log.cache, log.cache.head, log.cache.bufs, log.cache.disk
    ensures log.Valid() && !log.busy && NoneBusy(log.cache.Entries())
    ensures Startable(old(log.cache.disk.now.sectors), log.start, log.Cap())
    ensures AllAdmissible(PutsOf(txns), log.start, log.Cap())
    ensures log.cache.disk.past.images
            == old(log.cache.disk.past.images)
               + RunSteps(old(log.cache.disk.now.sectors), log.start, log.Cap(), PutsOf(txns))
    ensures log.cache.disk.now.sectors
            == RunEnd(old(log.cache.disk.now.sectors), log.start, log.Cap(), PutsOf(txns))
  {
    hide Log.Valid, NoneBusy, TransactionSteps, RunSteps, RunEnd, Startable, AllAdmissible, Geometry, Admissible,
      Script, Roomy, Home, Puts, Scripts.Held, Chain, ImageAt;
    ghost var d, ws, start, cap := log.cache.disk.now.sectors, PutsOf(txns), log.start, log.Cap();
    ghost var past := log.cache.disk.past.images;
    ChainAdmissible(views, txns, start, cap);
    LogStartable(log);
    RunNone(d, start, cap, ws);
    var j := 0;
    while j < |txns|
      invariant 0 <= j <= |txns|
      invariant log.Valid() && !log.busy && NoneBusy(log.cache.Entries())
      invariant AllAdmissible(ws[..j], start, cap)
      invariant log.cache.disk.now.sectors == RunEnd(d, start, cap, ws[..j])
      invariant log.cache.disk.past.images == past + RunSteps(d, start, cap, ws[..j])
    {
      NextLink(views, txns, start, cap, d, j);
      var got := log.Transaction(txns[j], views[j]);
      j := j + 1;
    }
    assert ws[..|txns|] == ws;
  }

  /** Transactions, and one more that stops after some operations. */
  method RunUntilStop(log: Log, txns: seq<seq<Op>>, open: seq<Op>, ghost views: seq<seq<Block>>)
    requires log.Valid() && !log.busy && NoneBusy(log.cache.Entries())
    requires Chain(views, txns, log.start, log.Cap())
    requires |views[0]| == |log.cache.disk.now.sectors|
    requires views[0][..log.start] == log.cache.disk.now.sectors[..log.start]
    requires Script(views[|txns|], open) && Home(open, log.start) && Roomy(open, log.Cap(), NBUF)
    modifies log, log.cache, log.cache.head, log.cache.bufs, log.cache.disk
    ensures log.Valid()
    ensures Startable(old(log.cache.disk.now.sectors), log.start, log.Cap())
    ensures AllAdmissible(PutsOf(txns), log.start, log.Cap()) && Admissible(Puts(open), log.start, log.Cap())
    ensures var d, ws := old(log.cache.disk.now.sectors), PutsOf(txns);
            log.cache.disk.past.images
            == old(log.cache.disk.past.images) + RunSteps(d, log.start, log.Cap(), ws)
               + LogSteps(RunEnd(d, log.start, log.Cap(), ws), log.start, log.Cap(), Puts(open))
  {
    hide Log.Valid, NoneBusy, TransactionSteps, RunSteps, RunEnd, Startable, AllAdmissible, Geometry, Admissible,
      Script, Roomy, Home, Puts, Scripts.Held, LogSteps, Link;
    ghost var d := log.cache.disk.now.sectors;
    RunTransactions(log, txns, views);
    StopLink(views, txns, log.start, log.Cap(), d);
    var got := log.Unfinished(open, views[|txns|]);
  }

  lemma StopLink(views: seq<seq<Block>>, txns: seq<seq<Op>>, start: nat, cap: nat, d: Image)
    requires Chain(views, txns, start, cap) && Startable(d, start, cap) && AllAdmissible(PutsOf(txns), start, cap)
    requires |views[0]| == |d| && views[0][..start] == d[..start]
    ensures var e := RunEnd(d, start, cap, PutsOf(txns));
            |views[|txns|]| == |e| && views[|txns|][..start] == e[..start]
  {
    hide Link, RunEnd, ApplyAll, Puts, Startable, AllAdmissible;
    ChainView(views, txns, start, cap, |txns|);
    assert PutsOf(txns)[..|txns|] == PutsOf(txns);
  }

  /** A boot: recover_from_log, then transactions. */
  method RecoverAndRun(log: Log, txns: seq<seq<Op>>, ghost views: seq<seq<Block>>)
    requires log.cache.Valid() && |log.sector| == LOGSIZE && !log.busy && log.pins == []
    requires Geometry(log.cache.disk.now.sectors, log.start, log.Cap())
    requires Recoverable(log.cache.disk.now.sectors, log.start)
    requires Installing(log.cache.Entries(), log.cache.disk.now.sectors, log.start, [], 0, [])
    requires Chain(views, txns, log.start, log.Cap())
    requires |views[0]| == |log.cache.disk.now.sectors|
    requires views[0][..log.start] == Recovered(log.cache.disk.now.sectors, log.start)[..log.start]
    modifies log, log.cache, log.cache.head, log.cache.bufs, log.cache.disk
    ensures log.Valid() && !log.busy && NoneBusy(log.cache.Entries())
    ensures var r := Recovered(old(log.cache.disk.now.sectors), log.start);
            && Startable(r, log.start, log.Cap()) && AllAdmissible(PutsOf(txns), log.start, log.Cap())
            && log.cache.disk.past.images
               == old(log.cache.disk.past.images) + RecoverySteps(old(log.cache.disk.now.sectors), log.start)
                  + RunSteps(r, log.start, log.Cap(), PutsOf(txns))
  {
    hide StorageOk, RingOf, Linked, InOrder, Distinct, Unique, NoneBusy, Installing, RecoverySteps, Recovered, RunSteps,
      Chain;
    log.RecoverFromLog();
    RunTransactions(log, txns, views);
  }

  lemma LogStartable(log: Log)
    requires log.Valid()
    ensures Startable(log.cache.disk.now.sectors, log.start, log.Cap())
  {
  }

  lemma RunNone(d: Image, start: nat, cap: nat, ws: seq<seq<Write>>)
    requires Startable(d, start, cap)
    ensures AllAdmissible(ws[..0], start, cap)
    ensures RunSteps(d, start, cap, ws[..0]) == [] && RunEnd(d, start, cap, ws[..0]) == d
  {
  }
}
