/** Boots that run transactions, crash at an arbitrary sector write, crash again inside
    recovery any number of times, recover, and go on. */
module CrashRuns {
  import opened Blocks
  import opened RedoLog
  import opened Transactions

  ghost predicate AllAdmissible(txns: seq<seq<Write>>, start: nat, cap: nat) {
    forall i :: 0 <= i < |txns| ==> Admissible(txns[i], start, cap)
  }

  /** Sector writes made by one transaction: its log_writes, two headers, its installs. */
  function StepCount(ws: seq<Write>): nat {
    if ws == [] then 0 else |ws| + |Header(ws)| + 2
  }

  function TotalSteps(txns: seq<seq<Write>>): nat {
    if txns == [] then 0 else StepCount(txns[0]) + TotalSteps(txns[1..])
  }

  ghost predicate Startable(d: Image, start: nat, cap: nat) {
    Geometry(d, start, cap) && Quiescent(d, start)
  }

  ghost function TransactionEnd(d: Image, start: nat, cap: nat, ws: seq<Write>): (e: Image)
    requires Startable(d, start, cap) && Admissible(ws, start, cap)
    ensures |e| == |d| && Startable(e, start, cap)
    ensures e[..start] == Apply(d[..start], ws)
    ensures |TransactionSteps(d, start, cap, ws)| == StepCount(ws)
  {
    TransactionDone(d, start, cap, ws);
    TransactionLength(d, start, cap, ws);
    var t := TransactionSteps(d, start, cap, ws);
    ImageAt(d, t, |t|)
  }

  lemma TransactionLength(d: Image, start: nat, cap: nat, ws: seq<Write>)
    requires Geometry(d, start, cap) && Admissible(ws, start, cap)
    ensures |TransactionSteps(d, start, cap, ws)| == StepCount(ws)
  {
    HeaderFits(ws, start, cap);
    if ws != [] {
      HeaderRoundTrip(Logged(d, start, cap, ws)[start], Header(ws));
    }
  }

  /** The disk after the first k sector writes of a run of transactions. */
  ghost function RunImage(d: Image, start: nat, cap: nat, txns: seq<seq<Write>>, k: nat): (e: Image)
    requires Startable(d, start, cap) && AllAdmissible(txns, start, cap) && k <= TotalSteps(txns)
    decreases |txns|
  {
    if txns == [] then d
    else
      var e := TransactionEnd(d, start, cap, txns[0]);
      if k < StepCount(txns[0]) then ImageAt(d, TransactionSteps(d, start, cap, txns[0]), k)
      else RunImage(e, start, cap, txns[1..], k - StepCount(txns[0]))
  }

  /** How many transactions have their commit header on disk after k sector writes. */
  function Committed(txns: seq<seq<Write>>, k: nat): (j: nat)
    ensures j <= |txns|
  {
    if txns == [] then 0
    else if txns[0] != [] && k <= |txns[0]| then 0
    else if k < StepCount(txns[0]) then 1
    else 1 + Committed(txns[1..], k - StepCount(txns[0]))
  }

  function ApplyAll(h: seq<Block>, txns: seq<seq<Write>>): (r: seq<Block>)
    requires forall i, j :: 0 <= i < |txns| && 0 <= j < |txns[i]| ==> txns[i][j].sector < |h|
    ensures |r| == |h|
    decreases |txns|
  {
    if txns == [] then h else ApplyAll(Apply(h, txns[0]), txns[1..])
  }

  /** A crash after any sector write of a run leaves an image whose recovery holds exactly the
      transactions whose commit header had reached the disk, in order, each in full. */
  lemma {:induction false} RunAtomic(d: Image, start: nat, cap: nat, txns: seq<seq<Write>>, k: nat)
    requires Startable(d, start, cap) && AllAdmissible(txns, start, cap)
    requires k <= TotalSteps(txns)
    ensures var e := RunImage(d, start, cap, txns, k);
            && |e| == |d|
            && Recoverable(e, start)
            && Recovered(e, start)[..start] == ApplyAll(d[..start], txns[..Committed(txns, k)])
    decreases |txns|
  {
    hide TransactionSteps, Recovered, Recoverable, Quiescent, Header, Apply;
    if txns == [] {
      RecoverQuiescent(d, start);
    } else {
      var e := TransactionEnd(d, start, cap, txns[0]);
      if k < StepCount(txns[0]) {
        TransactionAtomic(d, start, cap, txns[0], k);
        TransactionImageSize(d, start, cap, txns[0], k);
        ApplyAllOne(d[..start], txns[0]);
        assert txns[..1] == [txns[0]];
      } else {
        var k' := k - StepCount(txns[0]);
        RunAtomic(e, start, cap, txns[1..], k');
        ApplyAllFirst(d[..start], txns, 1 + Committed(txns[1..], k'));
      }
    }
  }

  lemma ApplyAllOne(h: seq<Block>, ws: seq<Write>)
    requires forall j :: 0 <= j < |ws| ==> ws[j].sector < |h|
    ensures ApplyAll(h, [ws]) == Apply(h, ws)
  {
    assert [ws][1..] == [];
  }

  lemma ApplyAllFirst(h: seq<Block>, txns: seq<seq<Write>>, j: nat)
    requires forall i, j :: 0 <= i < |txns| && 0 <= j < |txns[i]| ==> txns[i][j].sector < |h|
    requires 0 < j <= |txns|
    ensures ApplyAll(h, txns[..j]) == ApplyAll(Apply(h, txns[0]), txns[1..][..j - 1])
  {
    hide Apply;
    assert txns[..j][1..] == txns[1..][..j - 1] && txns[..j][0] == txns[0];
  }

  /** Durability: a transaction whose commit_trans has returned survives every later crash. */
  lemma {:induction false} CommittedMonotone(txns: seq<seq<Write>>, done: nat, k: nat)
    requires done <= |txns| && TotalSteps(txns[..done]) <= k
    ensures done <= Committed(txns, k)
    decreases done
  {
    if done > 0 {
      assert txns[..done][0] == txns[0] && txns[..done][1..] == txns[1..][..done - 1];
      CommittedMonotone(txns[1..], done - 1, k - StepCount(txns[0]));
    }
  }

  // ----- the images of a run -----

  /** Every image of a run, in order. */
  ghost function RunSteps(d: Image, start: nat, cap: nat, txns: seq<seq<Write>>): (t: seq<Image>)
    requires Startable(d, start, cap) && AllAdmissible(txns, start, cap)
    decreases |txns|
  {
    if txns == [] then []
    else
      var e := TransactionEnd(d, start, cap, txns[0]);
      TransactionSteps(d, start, cap, txns[0]) + RunSteps(e, start, cap, txns[1..])
  }

  ghost function RunEnd(d: Image, start: nat, cap: nat, txns: seq<seq<Write>>): (e: Image)
    requires Startable(d, start, cap) && AllAdmissible(txns, start, cap)
    ensures |e| == |d| && Startable(e, start, cap)
    ensures e[..start] == ApplyAll(d[..start], txns)
    decreases |txns|
  {
    if txns == [] then d else RunEnd(TransactionEnd(d, start, cap, txns[0]), start, cap, txns[1..])
  }

  /** The disk after k sector writes is the k-th image. */
  lemma {:induction false} RunImageIs(d: Image, start: nat, cap: nat, txns: seq<seq<Write>>, k: nat)
    requires Startable(d, start, cap) && AllAdmissible(txns, start, cap) && k <= TotalSteps(txns)
    ensures |RunSteps(d, start, cap, txns)| == TotalSteps(txns)
    ensures RunImage(d, start, cap, txns, k) == ImageAt(d, RunSteps(d, start, cap, txns), k)
    decreases |txns|
  {
    hide TransactionSteps, StepCount, Admissible, ApplyAll, Startable;
    if txns != [] {
      var e := TransactionEnd(d, start, cap, txns[0]);
      var n := StepCount(txns[0]);
      RunImageIs(e, start, cap, txns[1..], if k < n then 0 else k - n);
    }
  }

  lemma {:induction false} RunStepsMore(d: Image, start: nat, cap: nat, txns: seq<seq<Write>>, ws: seq<Write>)
    requires Startable(d, start, cap) && AllAdmissible(txns, start, cap) && Admissible(ws, start, cap)
    ensures AllAdmissible(txns + [ws], start, cap)
    ensures var e := RunEnd(d, start, cap, txns);
            && RunSteps(d, start, cap, txns + [ws])
               == RunSteps(d, start, cap, txns) + TransactionSteps(e, start, cap, ws)
            && RunEnd(d, start, cap, txns + [ws]) == TransactionEnd(e, start, cap, ws)
    decreases |txns|
  {
    hide TransactionSteps, Admissible;
    var all := txns + [ws];
    if txns == [] {
      assert all[0] == ws && all[1..] == [];
    } else {
      assert all[0] == txns[0] && all[1..] == txns[1..] + [ws];
      RunStepsMore(TransactionEnd(d, start, cap, txns[0]), start, cap, txns[1..], ws);
    }
  }

  // ----- a run that stops inside a transaction -----

  /** The disk after k sector writes, when behind txns a transaction is open with the writes ws. */
  ghost function OpenImage(d: Image, start: nat, cap: nat, txns: seq<seq<Write>>, ws: seq<Write>, k: nat): (e: Image)
    requires Startable(d, start, cap) && AllAdmissible(txns, start, cap) && Admissible(ws, start, cap)
    requires k <= TotalSteps(txns) + |ws|
  {
    if k <= TotalSteps(txns) then RunImage(d, start, cap, txns, k)
    else LoggedTake(RunEnd(d, start, cap, txns), start, cap, ws, k - TotalSteps(txns))
  }

  /** How many transactions are committed then. */
  function Finished(txns: seq<seq<Write>>, k: nat): (j: nat)
    ensures j <= |txns|
  {
    if k <= TotalSteps(txns) then Committed(txns, k) else |txns|
  }

  /** It recovers to those: of the open transaction nothing is left. */
  lemma OpenAtomic(d: Image, start: nat, cap: nat, txns: seq<seq<Write>>, ws: seq<Write>, k: nat)
    requires Startable(d, start, cap) && AllAdmissible(txns, start, cap) && Admissible(ws, start, cap)
    requires k <= TotalSteps(txns) + |ws|
    ensures var e := OpenImage(d, start, cap, txns, ws, k);
            && |e| == |d|
            && Recoverable(e, start)
            && Recovered(e, start)[..start] == ApplyAll(d[..start], txns[..Finished(txns, k)])
  {
    hide Recovered, Recoverable, RunImage, RunEnd, LoggedTake, ApplyAll, Committed, Header;
    if k <= TotalSteps(txns) {
      RunAtomic(d, start, cap, txns, k);
    } else {
      UncommittedRecovers(RunEnd(d, start, cap, txns), start, cap, ws, k - TotalSteps(txns));
      assert txns[..|txns|] == txns;
    }
  }

  /** These are the images of the run and then of the log_writes. */
  lemma OpenImageIs(d: Image, start: nat, cap: nat, txns: seq<seq<Write>>, ws: seq<Write>, k: nat)
    requires Startable(d, start, cap) && AllAdmissible(txns, start, cap) && Admissible(ws, start, cap)
    requires k <= TotalSteps(txns) + |ws|
    ensures var t := RunSteps(d, start, cap, txns) + LogSteps(RunEnd(d, start, cap, txns), start, cap, ws);
            |t| == TotalSteps(txns) + |ws| && OpenImage(d, start, cap, txns, ws, k) == ImageAt(d, t, k)
  {
    hide RunSteps, RunEnd, RunImage, LoggedTake, TotalSteps, Admissible;
    var n := TotalSteps(txns);
    var e := RunEnd(d, start, cap, txns);
    RunImageIs(d, start, cap, txns, if k <= n then k else 0);
    ImageAtConcat(d, RunSteps(d, start, cap, txns), LogSteps(e, start, cap, ws), k);
    LoggedImageAt(e, start, cap, ws, if k <= n then 0 else k - n);
  }

  // ----- many boots -----

  /** What happens between two completed recoveries. */
  datatype Boot = Boot(txns: seq<seq<Write>>, crash: nat, recoveryCrashes: seq<nat>)

  ghost predicate Bootable(b: Boot, start: nat, cap: nat) {
    AllAdmissible(b.txns, start, cap) && b.crash <= TotalSteps(b.txns)
  }

  /** The image after a boot: run, crash, crashed recoveries, one completed recovery. */
  ghost function AfterBoot(d: Image, start: nat, cap: nat, b: Boot): (e: Image)
    requires Startable(d, start, cap) && Bootable(b, start, cap)
    ensures |e| == |d| && Startable(e, start, cap)
    ensures e[..start] == ApplyAll(d[..start], b.txns[..Committed(b.txns, b.crash)])
  {
    RunAtomic(d, start, cap, b.txns, b.crash);
    var c := RunImage(d, start, cap, b.txns, b.crash);
    RecoveredQuiescent(c, start);
    Recovered(CrashedRecoveries(c, start, b.recoveryCrashes), start)
  }

  lemma TransactionImageSize(d: Image, start: nat, cap: nat, ws: seq<Write>, k: nat)
    requires Geometry(d, start, cap) && Admissible(ws, start, cap)
    requires k <= |TransactionSteps(d, start, cap, ws)|
    ensures |ImageAt(d, TransactionSteps(d, start, cap, ws), k)| == |d|
  {
    hide Logged, LoggedTake, Header, LogSteps, Recovered, HeaderBlock, HeaderSectors, HeaderCount, Installed;
    HeaderFits(ws, start, cap);
    var f := Logged(d, start, cap, ws);
    LoggedImageAt(d, start, cap, ws, if k <= |ws| then k else 0);
    ImageAtConcat(d, LogSteps(d, start, cap, ws), CommitSteps(f, start, Header(ws)), k);
    if k > |ws| {
      HeaderRoundTrip(f[start], Header(ws));
    }
  }

  ghost function AfterBoots(d: Image, start: nat, cap: nat, boots: seq<Boot>): (e: Image)
    requires Startable(d, start, cap) && forall i :: 0 <= i < |boots| ==> Bootable(boots[i], start, cap)
    ensures |e| == |d| && Startable(e, start, cap)
    decreases |boots|
  {
    if boots == [] then d else AfterBoots(AfterBoot(d, start, cap, boots[0]), start, cap, boots[1..])
  }

  /** The transactions that survive: in each boot, those committed before its crash. */
  function Survivors(boots: seq<Boot>): seq<seq<Write>> {
    if boots == [] then []
    else boots[0].txns[..Committed(boots[0].txns, boots[0].crash)] + Survivors(boots[1..])
  }

  lemma {:induction false} SurvivorsAdmissible(boots: seq<Boot>, start: nat, cap: nat)
    requires forall i :: 0 <= i < |boots| ==> Bootable(boots[i], start, cap)
    ensures AllAdmissible(Survivors(boots), start, cap)
  {
    if boots != [] {
      SurvivorsAdmissible(boots[1..], start, cap);
    }
  }

  lemma {:induction false} ApplyAllConcat(h: seq<Block>, a: seq<seq<Write>>, b: seq<seq<Write>>)
    requires forall i, j :: 0 <= i < |a| && 0 <= j < |a[i]| ==> a[i][j].sector < |h|
    requires forall i, j :: 0 <= i < |b| && 0 <= j < |b[i]| ==> b[i][j].sector < |h|
    ensures forall i, j :: 0 <= i < |a + b| && 0 <= j < |(a + b)[i]| ==> (a + b)[i][j].sector < |h|
    ensures ApplyAll(h, a + b) == ApplyAll(ApplyAll(h, a), b)
    decreases |a|
  {
    if a == [] {
      assert a + b == b;
    } else {
      assert (a + b)[1..] == a[1..] + b;
      ApplyAllConcat(Apply(h, a[0]), a[1..], b);
    }
  }

  /** Crash safety over whole histories: after any number of boots, each ended by a crash at any
      point and any number of crashes inside recovery, the home sectors hold the effect of the
      committed transactions and of nothing else. */
  lemma {:induction false} CrashSafety(d: Image, start: nat, cap: nat, boots: seq<Boot>)
    requires Startable(d, start, cap) && forall i :: 0 <= i < |boots| ==> Bootable(boots[i], start, cap)
    ensures AllAdmissible(Survivors(boots), start, cap)
    ensures AfterBoots(d, start, cap, boots)[..start] == ApplyAll(d[..start], Survivors(boots))
    decreases |boots|
  {
    SurvivorsAdmissible(boots, start, cap);
    if boots != [] {
      var b := boots[0];
      var e := AfterBoot(d, start, cap, b);
      SurvivorsAdmissible(boots[1..], start, cap);
      CrashSafety(e, start, cap, boots[1..]);
      ApplyAllConcat(d[..start], b.txns[..Committed(b.txns, b.crash)], Survivors(boots[1..]));
    }
  }
}
