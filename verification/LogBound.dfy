/** Where the file layer meets the log: how many sectors a transaction may touch. */
module LogBound {
  import opened Basics
  import opened Blocks
  import opened RedoLog
  import opened Transactions
  import opened CrashRuns
  import opened Scripts
  import opened Recency
  import opened BufferCache
  import opened CacheAgreement
  import opened Log
  import opened LogRuns
  import FileState
  import FileNeeds
  import Fs
  import FileWrite

  /** Writes to fewer than cap home sectors, however often each, are a transaction log_write takes. */
  lemma FewSectors(ws: seq<Write>, sectors: set<Word>, start: nat, cap: nat)
    requires forall i :: 0 <= i < |ws| ==> ws[i].sector in sectors && ws[i].sector < start
    requires |sectors| < cap
    ensures Admissible(ws, start, cap)
  {
    forall k | 0 <= k < |ws| ensures |Header(ws[..k])| < cap {
      var lh := Header(ws[..k]);
      HeaderSubset(ws[..k], sectors);
      HeaderDistinct(ws[..k]);
      SizeOfDistinct(lh);
      SubsetSize(Elements(lh), sectors);
    }
  }

  // ----- filewrite -----

  function BlocksOf(views: seq<FileState.FileSys>): (r: seq<seq<Block>>)
    ensures |r| == |views| && forall j :: 0 <= j < |r| ==> r[j] == views[j].blocks
  {
    seq(|views|, j requires 0 <= j < |views| => views[j].blocks)
  }

  /** The log of the image mkfs makes has LOGSIZE sectors, so nine for data, and its bitmap is one
      block. There the transactions of filewrite fit: each finds buffers and room in the header all the
      way, and is admissible, and the blocks go from one stage to the next. */
  lemma FilewriteFits(f0: FileState.FileSys, off0: nat, addr: seq<Byte>, st: FileWrite.Stages, start: nat)
    requires FileWrite.StagesOk(f0, off0, addr, st) && f0.sb.size <= FileState.BPB && start == FileState.LogStart(f0.sb)
    ensures Chain(BlocksOf(st.views), st.txns, start, LOGSIZE - 1)
    ensures AllAdmissible(PutsOf(st.txns), start, LOGSIZE - 1)
  {
    hide FileWrite.Stage;
    var views := BlocksOf(st.views);
    FirstView(f0, off0, addr, st);
    forall j | 0 <= j < |st.txns| ensures Link(views[j], st.txns[j], views[j + 1], start, LOGSIZE - 1) {
      assert FileWrite.StepAt(st, j) && FileWrite.StageAt(f0, off0, addr, st, j);
      StageFrame(f0, off0, addr, Min(j * Fs.CHUNK, |addr|), st.views[j], st.owners[j]);
      StepFits(st.views[j], st.txns[j], st.views[j + 1]);
    }
    ChainAdmissible(views, st.txns, start, LOGSIZE - 1);
  }

  lemma FirstView(f0: FileState.FileSys, off0: nat, addr: seq<Byte>, st: FileWrite.Stages)
    requires FileWrite.StagesOk(f0, off0, addr, st)
    ensures |st.views| == |st.txns| + 1 && FileState.LogStart(f0.sb) <= |st.views[0].blocks|
  {
    assert FileWrite.StageAt(f0, off0, addr, st, 0);
    StageFrame(f0, off0, addr, Min(0, |addr|), st.views[0], st.owners[0]);
  }

  lemma StageFrame(f0: FileState.FileSys, off0: nat, addr: seq<Byte>, m: nat, f: FileState.FileSys,
                   owner: FileState.Owner)
    requires FileWrite.Stage(f0, off0, addr, m, f, owner)
    ensures f.sb == f0.sb && FileState.LogStart(f.sb) <= |f.blocks|
  {
  }

  lemma StepFits(f: FileState.FileSys, ops: seq<Op>, g: FileState.FileSys)
    requires Fs.Step(f, ops, g) && f.sb.size <= FileState.BPB && FileState.LogStart(f.sb) >= 0
    ensures Link(f.blocks, ops, g.blocks, FileState.LogStart(f.sb), LOGSIZE - 1)
  {
    hide Script, Used, Scripts.Held, Puts, Roomy, Apply;
    FewUsed(f.blocks, ops, LOGSIZE - 1, NBUF);
  }

  /** And so does the transaction in which balloc fails, as long as it keeps off the log: log_write does
      not panic before balloc does. */
  lemma StopFits(f: FileState.FileSys, ops: seq<Op>, home: bool, n: nat, start: nat)
    requires Fs.Stopped(f, ops, home) && f.sb.size <= FileState.BPB && start == FileState.LogStart(f.sb)
    requires n <= |ops| && Home(ops[..n], start)
    ensures Script(f.blocks, ops[..n]) && Roomy(ops[..n], LOGSIZE - 1, NBUF)
    ensures Admissible(Puts(ops[..n]), start, LOGSIZE - 1)
  {
    hide Script, Used, Puts, Roomy;
    UsedPrefix(f.blocks, ops, n);
    SubsetSize(Used(ops[..n]), Fs.HomeOf(Used(ops), start));
    FewUsed(f.blocks, ops[..n], LOGSIZE - 1, NBUF);
    RoomyAdmissible(f.blocks, ops[..n], start, LOGSIZE - 1, NBUF);
  }

  // ----- a full header -----

  /** log_write looks for room before it looks for the sector: once as many sectors are logged as fit,
      it panics even for one of those. */
  method AbsorptionComesTooLate(log: Log, b: Buf) returns (ok: bool)
    requires log.Valid() && log.busy && b in log.cache.bufs && b.st.busy
    requires log.n == log.Cap() && b.st.sector in log.Lh()
    modifies log, log.cache, log.cache.head, log.cache.bufs, log.cache.disk
    ensures !ok
  {
    ok := log.LogWrite(b);
  }

  /** A transaction gets there: begin_trans, the first Cap() sectors, and the first of them again. */
  method FillHeader(log: Log) returns (b: Buf)
    requires log.Valid() && !log.busy && NoneBusy(log.cache.Entries())
    requires 0 < log.Cap() < NBUF && log.Cap() <= log.start < 0x1_0000_0000
    modifies log, log.cache, log.cache.head, log.cache.bufs, log.cache.disk
    ensures log.Valid() && log.busy && b in log.cache.bufs && b.st.busy
    ensures log.n == log.Cap() && b.st.sector in log.Lh()
  {
    hide StorageOk, RingOf, Linked, InOrder, Distinct, Unique, NoneBusy, Latest, Append, Holding;
    var began := log.BeginTrans();
    LogNone(log);
    var s := 0;
    while s < log.Cap()
      invariant 0 <= s <= log.Cap()
      invariant log.Valid() && log.busy && log.Keeps(map[])
      invariant log.Lh() == UpTo(s)
    {
      LogNext(log, s);
      s := s + 1;
    }
    UpToNext(s);
    b := log.Fetch(0, map[]);
    HeldIs(log, 0, b);
    assert UpTo(s)[0] == 0;
  }

  /** bread, log_write and brelse of sector s. */
  method LogNext(log: Log, s: Word)
    requires log.Valid() && log.busy && log.Keeps(map[]) && s < log.Cap() < NBUF && s < log.start
    requires log.Lh() == UpTo(s)
    modifies log, log.cache, log.cache.head, log.cache.bufs, log.cache.disk
    ensures log.Valid() && log.busy && log.Keeps(map[])
    ensures log.Lh() == UpTo(s + 1)
  {
    hide StorageOk, RingOf, Linked, InOrder, Distinct, Unique, NoneBusy, Latest, Append, Holding, Entered, UpTo;
    UpToNext(s);
    var b := log.Fetch(s, map[]);
    OneHeld(s, b);
    log.Change(b, Write(s, b.st.data), map[s := b]);
    log.GiveUp(b, s, map[s := b]);
  }

  ghost function UpTo(s: nat): (lh: seq<Word>)
    requires s <= 0x1_0000_0000
    ensures |lh| == s
  {
    seq(s, i requires 0 <= i < s => i)
  }

  lemma UpToNext(s: Word)
    ensures Entered(UpTo(s), s) == UpTo(s + 1)
    ensures |{s} + Elements(UpTo(s))| <= s + 1 && |{} + Elements(UpTo(s))| <= s
  {
    assert IndexOf(UpTo(s), s) == s;
    SizeAtMost(UpTo(s));
    assert {} + Elements(UpTo(s)) == Elements(UpTo(s));
  }

  lemma OneHeld(s: Word, b: Buf)
    ensures var m: map<Word, Buf> := map[s := b];
            map[][s := b] == m && m.Keys == {s} && m - {s} == map[]
  {
  }

  lemma LogNone(log: Log)
    requires log.Valid()
    ensures log.Keeps(map[]) <==> NoneBusy(log.cache.Entries())
  {
    HoldingNone(log.View(), map[]);
  }

  lemma HeldIs(log: Log, s: Word, b: Buf)
    requires log.Valid() && log.Keeps(map[s := b])
    ensures b in log.cache.bufs && b.st.busy && b.st.sector == s
  {
    HoldingAt(log.View(), map[s := b], s);
  }
}
