/** Whole runs of the log: transactions, crashes, recoveries that crash, and reboots. */
module Transactions {
  import opened Basics
  import opened Blocks
  import opened RedoLog

  /** One log_write: the block b->data for sector b->sector. */
  datatype Write = Write(sector: Word, data: Block)

  /** The absorption loop of log_write: the first entry for s, or one past the end. */
  function IndexOf(lh: seq<Word>, s: Word): (i: nat)
    ensures i <= |lh|
    ensures i < |lh| ==> lh[i] == s
    ensures s in lh <==> i < |lh|
  {
    if lh == [] || lh[0] == s then 0 else 1 + IndexOf(lh[1..], s)
  }

  /** The in-memory header after the given writes. */
  function Header(ws: seq<Write>): (lh: seq<Word>)
    ensures |lh| <= |ws|
    ensures ws != [] ==> lh != []
  {
    if ws == [] then []
    else
      var lh := Header(ws[..|ws| - 1]);
      var s := ws[|ws| - 1].sector;
      Entered(lh, s)
  }

  /** No sector is entered twice. */
  lemma {:induction false} HeaderDistinct(ws: seq<Write>)
    ensures Distinct(Header(ws))
  {
    if ws != [] {
      HeaderDistinct(ws[..|ws| - 1]);
    }
  }

  /** What the caller and the guards of log_write ask of a transaction: it writes home
      sectors only, and never reaches the "too big a transaction" panic. */
  ghost predicate Admissible(ws: seq<Write>, start: nat, cap: nat) {
    && (forall i :: 0 <= i < |ws| ==> ws[i].sector < start)
    && (forall k :: 0 <= k < |ws| ==> |Header(ws[..k])| < cap)
  }

  ghost predicate Geometry(d: Image, start: nat, cap: nat) {
    0 < start && start + cap < |d| < 0x1_0000_0000 && cap <= LOGSIZE
  }

  lemma AdmissiblePrefix(ws: seq<Write>, start: nat, cap: nat)
    requires Admissible(ws, start, cap) && ws != []
    ensures Admissible(ws[..|ws| - 1], start, cap)
  {
    var vs := ws[..|ws| - 1];
    forall k | 0 <= k < |vs|
      ensures |Header(vs[..k])| < cap
    {
      assert vs[..k] == ws[..k];
    }
  }

  lemma {:induction false} HeaderFits(ws: seq<Write>, start: nat, cap: nat)
    requires Admissible(ws, start, cap)
    ensures |Header(ws)| <= cap
    ensures forall i :: 0 <= i < |Header(ws)| ==> Header(ws)[i] < start
  {
    if ws != [] {
      AdmissiblePrefix(ws, start, cap);
      HeaderFits(ws[..|ws| - 1], start, cap);
    }
  }

  /** The disk after the log_write calls of an open transaction. */
  function Logged(d: Image, start: nat, cap: nat, ws: seq<Write>): (e: Image)
    requires Geometry(d, start, cap) && Admissible(ws, start, cap)
    ensures |e| == |d|
  {
    if ws == [] then d
    else
      AdmissiblePrefix(ws, start, cap);
      HeaderFits(ws[..|ws| - 1], start, cap);
      var w := ws[|ws| - 1];
      Append(Logged(d, start, cap, ws[..|ws| - 1]), start, Header(ws[..|ws| - 1]), w)
  }

  /** The sector write of one log_write. */
  function Append(d: Image, start: nat, lh: seq<Word>, w: Write): (e: Image)
    requires start + 1 + |lh| < |d|
    ensures |e| == |d|
  {
    d[start + 1 + IndexOf(lh, w.sector) := w.data]
  }

  /** The meaning of a transaction: later writes of a sector replace earlier ones. */
  function Apply(h: seq<Block>, ws: seq<Write>): (r: seq<Block>)
    requires forall i :: 0 <= i < |ws| ==> ws[i].sector < |h|
    ensures |r| == |h|
  {
    if ws == [] then h
    else
      var w := ws[|ws| - 1];
      Apply(h, ws[..|ws| - 1])[w.sector := w.data]
  }

  /** What bread must return during a transaction: the logged block, else the home block. */
  function View(d: Image, start: nat, lh: seq<Word>, s: Word): Block
    requires start + |lh| < |d| && s < start
  {
    BlockAt(d, start, |lh|, IndexOf(lh, s), s)
  }

  function BlockAt(d: Image, start: nat, n: nat, i: nat, s: Word): Block
    requires start + n < |d| && s < start
  {
    if i < n then d[start + 1 + i] else d[s]
  }

  /** While a transaction is open the header and the home sectors are untouched, and the
      view of every home sector is its last written value. */
  lemma {:induction false} OpenTransaction(d: Image, start: nat, cap: nat, ws: seq<Write>)
    requires Geometry(d, start, cap) && Admissible(ws, start, cap)
    ensures |Header(ws)| <= cap
    ensures Logged(d, start, cap, ws)[..start + 1] == d[..start + 1]
    ensures forall s :: 0 <= s < start ==>
              View(Logged(d, start, cap, ws), start, Header(ws), s) == Apply(d[..start], ws)[s]
  {
    HeaderFits(ws, start, cap);
    if ws != [] {
      var n := |ws| - 1;
      AdmissiblePrefix(ws, start, cap);
      HeaderFits(ws[..n], start, cap);
      OpenTransaction(d, start, cap, ws[..n]);
      var lh, e := Header(ws[..n]), Logged(d, start, cap, ws[..n]);
      var lh', e' := Header(ws), Logged(d, start, cap, ws);
      forall s | 0 <= s < start
        ensures View(e', start, lh', s) == Apply(d[..start], ws)[s]
      {
        ViewAfterWrite(e, start, lh, ws[n], s);
        assert View(e, start, lh, s) == Apply(d[..start], ws[..n])[s];
      }
      assert e'[..start + 1] == e[..start + 1];
    }
  }

  lemma {:induction false} IndexFirst(lh: seq<Word>, s: Word)
    ensures forall j :: 0 <= j < IndexOf(lh, s) ==> lh[j] != s
  {
    if lh != [] && lh[0] != s {
      IndexFirst(lh[1..], s);
    }
  }

  lemma IndexIs(lh: seq<Word>, s: Word, i: nat)
    requires i <= |lh| && (i < |lh| ==> lh[i] == s)
    requires forall j :: 0 <= j < i ==> lh[j] != s
    ensures IndexOf(lh, s) == i
  {
    IndexFirst(lh, s);
  }

  /** The in-memory header after one more log_write. */
  function Entered(lh: seq<Word>, s: Word): (lh': seq<Word>) {
    if IndexOf(lh, s) < |lh| then lh else lh + [s]
  }

  lemma IndexAfterEntry(lh: seq<Word>, w: Word, s: Word)
    ensures var i := IndexOf(lh, s);
            IndexOf(Entered(lh, w), s) == if i < |lh| || s == w then i else |Entered(lh, w)|
  {
    var i := IndexOf(lh, s);
    var lh' := Entered(lh, w);
    IndexFirst(lh, s);
    IndexIs(lh', s, if i < |lh| || s == w then i else |lh'|);
  }

  lemma ViewAfterWrite(e: Image, start: nat, lh: seq<Word>, w: Write, s: Word)
    requires start + |lh| + 1 < |e| && w.sector < start && s < start
    ensures View(Append(e, start, lh, w), start, Entered(lh, w.sector), s)
            == if s == w.sector then w.data else View(e, start, lh, s)
  {
    IndexAfterEntry(lh, w.sector, s);
    var i, j := IndexOf(lh, w.sector), IndexOf(lh, s);
    if j < |lh| {
      AppendAt(e, start, lh, w, start + 1 + j);
    } else if s == w.sector {
      AppendAt(e, start, lh, w, start + 1 + i);
    } else {
      AppendAt(e, start, lh, w, s);
    }
  }

  lemma AppendAt(e: Image, start: nat, lh: seq<Word>, w: Write, k: nat)
    requires start + |lh| + 1 < |e| && k < |e|
    ensures Append(e, start, lh, w)[k] == if k == start + 1 + IndexOf(lh, w.sector) then w.data else e[k]
  {
  }

  // ----- commit -----

  /** The image written by the first write_head of commit_trans. */
  function CommitHeader(d: Image, start: nat, lh: seq<Word>): (e: Image)
    requires start < |d| && |lh| <= LOGSIZE
    ensures |e| == |d|
  {
    d[start := HeaderBlock(d[start], lh)]
  }

  /** The images of commit_trans, one per sector write. */
  function CommitSteps(d: Image, start: nat, lh: seq<Word>): (t: seq<Image>)
    requires Fits(d, start, lh)
  {
    if lh == [] then []
    else
      var e := CommitHeader(d, start, lh);
      HeaderRoundTrip(d[start], lh);
      [e] + RecoverySteps(e, start)
  }

  /** No committed transaction is waiting in the log. */
  ghost predicate Quiescent(d: Image, start: nat) {
    start < |d| && HeaderCount(d[start]) == 0
  }

  lemma RecoverQuiescent(d: Image, start: nat)
    requires Quiescent(d, start)
    ensures Recoverable(d, start) && Recovered(d, start)[..start] == d[..start]
  {
  }

  lemma RecoveredQuiescent(d: Image, start: nat)
    requires Recoverable(d, start)
    ensures Quiescent(Recovered(d, start), start)
  {
    var secs := HeaderSectors(d[start]);
    HeaderRoundTrip(Installed(d, start, secs, |secs|)[start], []);
  }

  /** What recovery installs over a committed log is the view the transaction had. */
  lemma RecoveredIsView(f: Image, start: nat, lh: seq<Word>, s: Word)
    requires Fits(f, start, lh) && s < start
    requires Distinct(lh)
    ensures var e := CommitHeader(f, start, lh);
            Recoverable(e, start) && Recovered(e, start)[s] == View(f, start, lh, s)
  {
    hide HeaderBlock, HeaderSectors, HeaderCount, LastIndex, Installed;
    var e := CommitHeader(f, start, lh);
    HeaderRoundTrip(f[start], lh);
    InstalledAt(e, start, lh, |lh|, s);
    assert lh[..|lh|] == lh;
    var i := LastIndex(lh, s);
    if i >= 0 {
      IndexIs(lh, s, i);
    } else {
      IndexIs(lh, s, |lh|);
    }
  }

  /** Once the commit header is on disk, recovery gives the transaction's full effect. */
  lemma CommittedRecovers(d: Image, start: nat, cap: nat, ws: seq<Write>)
    requires Geometry(d, start, cap) && Admissible(ws, start, cap) && ws != []
    ensures Fits(Logged(d, start, cap, ws), start, Header(ws))
    ensures var e := CommitHeader(Logged(d, start, cap, ws), start, Header(ws));
            Recoverable(e, start) && Recovered(e, start)[..start] == Apply(d[..start], ws)
  {
    hide Logged, Header, View, CommitHeader, Recovered, Recoverable, Apply;
    OpenTransaction(d, start, cap, ws);
    HeaderFits(ws, start, cap);
    HeaderDistinct(ws);
    var lh, f := Header(ws), Logged(d, start, cap, ws);
    RecoveredIsView(f, start, lh, 0);
    forall s | 0 <= s < start
      ensures Recovered(CommitHeader(f, start, lh), start)[s] == Apply(d[..start], ws)[s]
    {
      RecoveredIsView(f, start, lh, s);
    }
  }

  // ----- one transaction -----

  lemma AdmissibleTake(ws: seq<Write>, start: nat, cap: nat, k: nat)
    requires Admissible(ws, start, cap) && k <= |ws|
    ensures Admissible(ws[..k], start, cap)
  {
    forall j | 0 <= j < k
      ensures |Header(ws[..k][..j])| < cap
    {
      assert ws[..k][..j] == ws[..j];
    }
  }

  function LoggedTake(d: Image, start: nat, cap: nat, ws: seq<Write>, k: nat): (e: Image)
    requires Geometry(d, start, cap) && Admissible(ws, start, cap) && k <= |ws|
    ensures |e| == |d|
  {
    AdmissibleTake(ws, start, cap, k);
    Logged(d, start, cap, ws[..k])
  }

  /** The images of a whole transaction: its log_write calls, then commit_trans. */
  function TransactionSteps(d: Image, start: nat, cap: nat, ws: seq<Write>): (t: seq<Image>)
    requires Geometry(d, start, cap) && Admissible(ws, start, cap)
  {
    HeaderFits(ws, start, cap);
    LogSteps(d, start, cap, ws) + CommitSteps(Logged(d, start, cap, ws), start, Header(ws))
  }

  /** The images of the log_write calls. */
  function LogSteps(d: Image, start: nat, cap: nat, ws: seq<Write>): (t: seq<Image>)
    requires Geometry(d, start, cap) && Admissible(ws, start, cap)
  {
    seq(|ws|, k requires 0 <= k < |ws| => LoggedTake(d, start, cap, ws, k + 1))
  }

  /** The image a list of steps leaves after k of them. */
  function ImageAt(d: Image, t: seq<Image>, k: nat): Image
    requires k <= |t|
  {
    if k == 0 then d else t[k - 1]
  }

  lemma ImageAtConcat(d: Image, t: seq<Image>, u: seq<Image>, k: nat)
    requires k <= |t| + |u|
    ensures ImageAt(d, t + u, k) == if k <= |t| then ImageAt(d, t, k) else u[k - |t| - 1]
  {
  }

  lemma LoggedImageAt(d: Image, start: nat, cap: nat, ws: seq<Write>, k: nat)
    requires Geometry(d, start, cap) && Admissible(ws, start, cap) && k <= |ws|
    ensures |LogSteps(d, start, cap, ws)| == |ws|
    ensures ImageAt(d, LogSteps(d, start, cap, ws), k) == LoggedTake(d, start, cap, ws, k)
  {
  }

  /** A crash at any sector write of a transaction: up to the last log_write the next
      recovery undoes it, from the commit header on the next recovery completes it. */
  lemma TransactionAtomic(d: Image, start: nat, cap: nat, ws: seq<Write>, k: nat)
    requires Geometry(d, start, cap) && Admissible(ws, start, cap) && Quiescent(d, start)
    requires k <= |TransactionSteps(d, start, cap, ws)|
    ensures var e := ImageAt(d, TransactionSteps(d, start, cap, ws), k);
            && Recoverable(e, start)
            && Recovered(e, start)[..start] == if k <= |ws| then d[..start] else Apply(d[..start], ws)
  {
    hide Logged, LoggedTake, Header, LogSteps, RecoverySteps, Recovered, Recoverable, HeaderBlock, HeaderSectors,
      HeaderCount, Apply, Quiescent;
    HeaderFits(ws, start, cap);
    var f := Logged(d, start, cap, ws);
    LoggedImageAt(d, start, cap, ws, if k <= |ws| then k else 0);
    ImageAtConcat(d, LogSteps(d, start, cap, ws), CommitSteps(f, start, Header(ws)), k);
    if k <= |ws| {
      UncommittedRecovers(d, start, cap, ws, k);
    } else {
      CommittedRecovers(d, start, cap, ws);
      CommitAtomic(f, start, Header(ws), k - |ws| - 1);
    }
  }

  /** Every image of a commit recovers to the same image as the one with the commit header. */
  lemma CommitAtomic(d: Image, start: nat, lh: seq<Word>, k: nat)
    requires Fits(d, start, lh) && k < |CommitSteps(d, start, lh)|
    ensures var e := CommitSteps(d, start, lh)[k];
            var c := CommitHeader(d, start, lh);
            Recoverable(c, start) && Recoverable(e, start) && Recovered(e, start) == Recovered(c, start)
  {
    HeaderRoundTrip(d[start], lh);
    if k > 0 {
      RecoverAgain(CommitHeader(d, start, lh), start, k - 1);
    }
  }

  /** Before the commit header is on disk, recovery gives back the old home sectors. */
  lemma UncommittedRecovers(d: Image, start: nat, cap: nat, ws: seq<Write>, k: nat)
    requires Geometry(d, start, cap) && Admissible(ws, start, cap) && Quiescent(d, start) && k <= |ws|
    ensures var e := LoggedTake(d, start, cap, ws, k);
            Quiescent(e, start) && Recoverable(e, start) && Recovered(e, start)[..start] == d[..start]
  {
    var e := LoggedTake(d, start, cap, ws, k);
    AdmissibleTake(ws, start, cap, k);
    OpenTransaction(d, start, cap, ws[..k]);
    assert e[start] == e[..start + 1][start] == d[..start + 1][start];
    RecoverQuiescent(e, start);
    assert e[..start] == e[..start + 1][..start] == d[..start + 1][..start] == d[..start];
  }

  /** The image when commit_trans returns is quiescent and holds the transaction's effect. */
  lemma TransactionDone(d: Image, start: nat, cap: nat, ws: seq<Write>)
    requires Geometry(d, start, cap) && Admissible(ws, start, cap) && Quiescent(d, start)
    ensures var t := TransactionSteps(d, start, cap, ws);
            var e := ImageAt(d, t, |t|);
            && |e| == |d|
            && Quiescent(e, start)
            && e[..start] == Apply(d[..start], ws)
  {
    if ws == [] {
      assert TransactionSteps(d, start, cap, ws) == [];
    } else {
      CommittedRecovers(d, start, cap, ws);
      var c := CommitHeader(Logged(d, start, cap, ws), start, Header(ws));
      RecoveredQuiescent(c, start);
    }
  }

  // ----- the steps of a transaction, one log_write at a time -----

  lemma LogStepsNone(d: Image, start: nat, cap: nat, ws: seq<Write>)
    requires Geometry(d, start, cap) && Admissible(ws, start, cap)
    ensures LoggedTake(d, start, cap, ws, 0) == d && Header(ws[..0]) == []
    ensures |LogSteps(d, start, cap, ws)| == |ws|
  {
  }

  lemma LogStepsNext(d: Image, start: nat, cap: nat, ws: seq<Write>, k: nat)
    requires Geometry(d, start, cap) && Admissible(ws, start, cap) && k < |ws|
    ensures |Header(ws[..k])| < cap && ws[k].sector < start
    ensures Header(ws[..k + 1]) == Entered(Header(ws[..k]), ws[k].sector)
    ensures start + 1 + |Header(ws[..k])| < |d|
    ensures |LogSteps(d, start, cap, ws)| == |ws|
    ensures LoggedTake(d, start, cap, ws, k + 1)
            == Append(LoggedTake(d, start, cap, ws, k), start, Header(ws[..k]), ws[k])
    ensures LogSteps(d, start, cap, ws)[..k + 1]
            == LogSteps(d, start, cap, ws)[..k] + [LoggedTake(d, start, cap, ws, k + 1)]
  {
    AdmissibleTake(ws, start, cap, k + 1);
    assert ws[..k + 1][..k] == ws[..k];
  }

  lemma TransactionStepsAre(d: Image, start: nat, cap: nat, ws: seq<Write>)
    requires Geometry(d, start, cap) && Admissible(ws, start, cap)
    ensures Fits(LoggedTake(d, start, cap, ws, |ws|), start, Header(ws))
    ensures TransactionSteps(d, start, cap, ws)
            == LogSteps(d, start, cap, ws) + CommitSteps(LoggedTake(d, start, cap, ws, |ws|), start, Header(ws))
  {
    HeaderFits(ws, start, cap);
    assert ws[..|ws|] == ws;
  }
}
