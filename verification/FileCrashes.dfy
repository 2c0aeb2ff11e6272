/** A crash in the middle of filewrite, on the log: what the next boot finds in the files. */
module FileCrashes {
  import opened Basics
  import opened Blocks
  import opened RedoLog
  import opened Transactions
  import opened CrashRuns
  import opened FileState
  import opened FileSteps
  import opened Fs
  import opened FileWrite
  import opened Scripts
  import BufferCache
  import opened LogRuns
  import opened LogBound

  /** The inode as ilock reads it. */
  ghost function OnDisk(blocks: seq<Block>, inum: nat): Inode
    requires InodeBlock(inum) < |blocks|
  {
    var b := blocks[InodeBlock(inum)];
    var w := InodeWord(inum, 0);
    Inode(inum, GetWord(b, w), GetWord(b, w + 1), GetWord(b, w + 2),
          seq(NDIRECT + 1, s requires 0 <= s <= NDIRECT => GetWord(b, InodeWord(inum, 3 + s))))
  }

  /** The file system on a disk that has been recovered, with inode inum locked. */
  ghost function Mounted(sb: Super, blocks: seq<Block>, inum: nat): FileSys
    requires inum < sb.ninodes && DataStart(sb) <= LogStart(sb) && |blocks| == sb.size
  {
    FileSys(sb, blocks, OnDisk(blocks, inum), 0)
  }

  /** The two disks agree on everything but the log. */
  ghost predicate SameHome(f: FileSys, r: seq<Block>) {
    Shape(f) && |r| == f.sb.size && r[..LogStart(f.sb)] == f.blocks[..LogStart(f.sb)]
  }

  lemma HomeBlock(f: FileSys, r: seq<Block>, b: nat)
    requires SameHome(f, r) && b < LogStart(f.sb)
    ensures r[b] == f.blocks[b]
  {
    assert r[b] == r[..LogStart(f.sb)][b];
  }

  lemma MountedIs(f: FileSys, owner: Owner, r: seq<Block>)
    requires Good(f, owner) && SameHome(f, r)
    ensures var g := Mounted(f.sb, r, f.ip.inum);
            && SameFrame(f, g) && g.ip == f.ip
            && forall i, w :: 0 <= i < f.sb.ninodes && 0 <= w < 16 ==> DiskWord(g, i, w) == DiskWord(f, i, w)
  {
    hide Owned, Marked, Filled;
    var g := Mounted(f.sb, r, f.ip.inum);
    forall i, w | 0 <= i < f.sb.ninodes && 0 <= w < 16 ensures DiskWord(g, i, w) == DiskWord(f, i, w) {
      HomeBlock(f, r, InodeBlock(i));
    }
    forall s | 0 <= s <= NDIRECT ensures g.ip.addrs[s] == f.ip.addrs[s] {
      assert DiskWord(f, f.ip.inum, 3 + s) == f.ip.addrs[s] && DiskWord(g, f.ip.inum, 3 + s) == g.ip.addrs[s];
    }
    assert DiskWord(g, f.ip.inum, 0) == g.ip.meta0 && DiskWord(g, f.ip.inum, 1) == g.ip.meta1;
    assert DiskWord(g, f.ip.inum, 2) == g.ip.size;
  }

  lemma SlotHome(f: FileSys, owner: Owner, i: nat, s: nat)
    requires Good(f, owner) && i < f.sb.ninodes && s < SLOTS
    ensures Slot(f, i, s) < LogStart(f.sb)
  {
    hide Slot, Marked, Filled, Synced;
  }

  lemma SlotsAre(f: FileSys, owner: Owner, r: seq<Block>, i: nat, s: nat)
    requires Good(f, owner) && SameHome(f, r) && i < f.sb.ninodes && s < SLOTS
    ensures var g := Mounted(f.sb, r, f.ip.inum); Shape(g) && Slot(g, i, s) == Slot(f, i, s)
  {
    MountedIs(f, owner, r);
    GoodFacts(f, owner);
    SlotHome(f, owner, i, INDIRECT);
    assert f.dead == 0;
    hide Good, Inv, SameHome, LogStart, DataStart;
    var g := Mounted(f.sb, r, f.ip.inum);
    hide Mounted;
    AddrsAre(f, g, i);
    HomeBlock(f, r, Addr(f, i, NDIRECT));
  }

  lemma AddrsAre(f: FileSys, g: FileSys, i: nat)
    requires SameFrame(f, g) && g.ip == f.ip && i < f.sb.ninodes
    requires forall i, w :: 0 <= i < f.sb.ninodes && 0 <= w < 16 ==> DiskWord(g, i, w) == DiskWord(f, i, w)
    ensures Size(g, i) == Size(f, i) && forall s :: 0 <= s <= NDIRECT ==> Addr(g, i, s) == Addr(f, i, s)
    ensures Slot(f, i, INDIRECT) == Addr(f, i, NDIRECT)
  {
    hide DiskWord;
  }

  lemma BitsAre(f: FileSys, owner: Owner, r: seq<Block>, b: nat)
    requires Good(f, owner) && SameHome(f, r) && b < f.sb.size
    ensures var g := Mounted(f.sb, r, f.ip.inum); Shape(g) && Bit(g, b) == Bit(f, b)
  {
    HomeBlock(f, r, BitmapBlock(f.sb, b));
  }

  /** What the log holds does not matter to a file system that is good: with the same home sectors it
      is good and has the same files. */
  lemma SameFiles(f: FileSys, owner: Owner, r: seq<Block>)
    requires Good(f, owner) && SameHome(f, r)
    ensures var g := Mounted(f.sb, r, f.ip.inum);
            && Good(g, owner) && SameFrame(f, g)
            && forall i :: 0 <= i < f.sb.ninodes ==>
                 Size(f, i) <= MAXFILE * BSIZE && Size(g, i) == Size(f, i) && Contents(g, i) == Contents(f, i)
  {
    var g := Mounted(f.sb, r, f.ip.inum);
    MountedIs(f, owner, r);
    GoodFacts(f, owner);
    hide Mounted, Slot, SameHome;
    forall i, s | 0 <= i < f.sb.ninodes && 0 <= s < SLOTS ensures Slot(g, i, s) == Slot(f, i, s) {
      SlotsAre(f, owner, r, i, s);
    }
    forall b | 0 <= b < f.sb.size ensures Bit(g, b) == Bit(f, b) {
      BitsAre(f, owner, r, b);
    }
    forall i | 0 <= i < f.sb.ninodes
      ensures Size(f, i) <= MAXFILE * BSIZE && Size(g, i) == Size(f, i) && Contents(g, i) == Contents(f, i)
    {
      SameContents(f, owner, r, i);
    }
    SameGood(f, owner, g);
  }

  lemma SameGood(f: FileSys, owner: Owner, g: FileSys)
    requires Good(f, owner) && SameFrame(f, g) && g.ip == f.ip && g.dead == 0
    requires forall i, w :: 0 <= i < f.sb.ninodes && 0 <= w < 16 ==> DiskWord(g, i, w) == DiskWord(f, i, w)
    requires forall i, s :: 0 <= i < f.sb.ninodes && 0 <= s < SLOTS ==> Slot(g, i, s) == Slot(f, i, s)
    requires forall b :: 0 <= b < f.sb.size ==> Bit(g, b) == Bit(f, b)
    ensures Good(g, owner)
  {
    hide Slot, Bit, DiskWord, Filled, DataStart;
    forall i | 0 <= i < f.sb.ninodes
      ensures Size(g, i) == Size(f, i) && (Filled(f, i, Size(f, i)) ==> Filled(g, i, Size(g, i)))
    {
      AddrsAre(f, g, i);
      FilledSame(f, g, i, Size(f, i));
    }
    FilledSame(f, g, f.ip.inum, f.ip.size);
    assert Owned(g, owner);
    assert Marked(g, owner);
    assert Inv(g, owner);
    assert Filled(g, g.ip.inum, g.ip.size);
    assert Synced(g);
  }

  lemma FilledSame(f: FileSys, g: FileSys, i: nat, n: nat)
    requires SameFrame(f, g) && i < f.sb.ninodes && forall s :: 0 <= s < SLOTS ==> Slot(g, i, s) == Slot(f, i, s)
    ensures Filled(f, i, n) ==> Filled(g, i, n)
  {
    hide Slot;
    assert forall bn :: 0 <= bn < MAXFILE ==> Data(g, i, bn) == Data(f, i, bn);
  }

  lemma SameContents(f: FileSys, owner: Owner, r: seq<Block>, i: nat)
    requires Good(f, owner) && SameHome(f, r) && i < f.sb.ninodes
    ensures var g := Mounted(f.sb, r, f.ip.inum);
            && SameFrame(f, g) && Size(f, i) <= MAXFILE * BSIZE && Size(g, i) == Size(f, i)
            && Contents(g, i) == Contents(f, i)
  {
    var g := Mounted(f.sb, r, f.ip.inum);
    MountedIs(f, owner, r);
    hide Mounted, Marked, Slot;
    forall k | 0 <= k < Size(f, i) ensures ByteAt(g, i, k) == ByteAt(f, i, k) {
      SlotsAre(f, owner, r, i, DataSlot(k / BSIZE));
      var b := Data(f, i, k / BSIZE);
      if b != 0 {
        assert b in owner;
      }
      HomeBlock(f, r, b);
    }
  }

  // ----- one transaction -----

  /** m is good and has the files of f. */
  ghost predicate FilesOf(f: FileSys, owner: Owner, m: FileSys) {
    && Good(m, owner) && SameFrame(f, m)
    && forall i :: 0 <= i < f.sb.ninodes ==>
         Size(f, i) <= MAXFILE * BSIZE && Size(m, i) == Size(f, i) && Contents(m, i) == Contents(f, i)
  }

  /** The disk that a boot recovers to when a transaction stops after k sector writes. */
  ghost function AfterStop(start: nat, ws: seq<Write>, d: Image, k: nat, crashes: seq<nat>): (r: Image)
    requires Startable(d, start, LOGSIZE - 1) && Admissible(ws, start, LOGSIZE - 1) && k <= TotalSteps([ws])
    ensures |r| == |d|
  {
    RunAtomic(d, start, LOGSIZE - 1, [ws], k);
    Recovered(CrashedRecoveries(RunImage(d, start, LOGSIZE - 1, [ws], k), start, crashes), start)
  }

  /** A crash after any sector write of a transaction like that of itrunc, and any crashes in the recoveries
      after it: the next boot finds the files from before or those from after. */
  lemma CrashInTransaction(f: FileSys, fo: Owner, ops: seq<Op>, g: FileSys, go: Owner, start: nat, d: Image, k: nat,
                           crashes: seq<nat>)
    requires Good(f, fo) && Good(g, go) && Step(f, ops, g) && SameFrame(f, g)
    requires f.sb.size <= BPB && start == LogStart(f.sb)
    requires Startable(d, start, LOGSIZE - 1) && SameHome(f, d) && k <= TotalSteps([Puts(ops)])
    ensures Admissible(Puts(ops), start, LOGSIZE - 1)
    ensures var m := Mounted(f.sb, AfterStop(start, Puts(ops), d, k, crashes), f.ip.inum);
            if Committed([Puts(ops)], k) == 0 then FilesOf(f, fo, m) else FilesOf(g, go, m)
  {
    hide Good, Size, Contents, Startable, Mounted, RunImage, Recovered, Recoverable, CrashedRecoveries, Admissible;
    var ws := Puts(ops);
    StepFits(f, ops, g);
    RoomyAdmissible(f.blocks, ops, start, LOGSIZE - 1, BufferCache.NBUF);
    hide Step, Link;
    RunAtomic(d, start, LOGSIZE - 1, [ws], k);
    LinkHome(f.blocks, ops, g.blocks, start);
    ApplyAllOne(d[..start], ws);
    assert [ws][..1] == [ws];
    var r := AfterStop(start, ws, d, k, crashes);
    if Committed([ws], k) == 0 {
      SameFiles(f, fo, r);
    } else {
      SameFiles(g, go, r);
    }
  }

  lemma LinkHome(h: seq<Block>, ops: seq<Op>, h': seq<Block>, start: nat)
    requires Link(h, ops, h', start, LOGSIZE - 1)
    ensures |h'| == |h| >= start && forall i :: 0 <= i < |Puts(ops)| ==> Puts(ops)[i].sector < start
    ensures h'[..start] == Apply(h[..start], Puts(ops))
  {
    RoomyAdmissible(h, ops, start, LOGSIZE - 1, BufferCache.NBUF);
    ApplyHome(h, Puts(ops), start);
  }

  // ----- filewrite -----

  /** How many chunks are committed after k sector writes. */
  function ChunksDone(st: Stages, k: nat): (j: nat)
    ensures j <= |st.txns|
  {
    Finished(PutsOf(st.txns), k)
  }

  /** Sector writes up to the n-th operation of the open transaction. */
  function WritesTo(st: Stages, n: nat): nat
    requires n <= |st.open|
  {
    TotalSteps(PutsOf(st.txns)) + |Puts(st.open[..n])|
  }

  /** The disk that a boot recovers to when the machine stops after k sector writes, and then in the middle
      of recoveries as the list says. */
  ghost function AfterCrash(start: nat, st: Stages, n: nat, d: Image, k: nat, crashes: seq<nat>): (r: Image)
    requires Startable(d, start, LOGSIZE - 1) && AllAdmissible(PutsOf(st.txns), start, LOGSIZE - 1)
    requires n <= |st.open| && Admissible(Puts(st.open[..n]), start, LOGSIZE - 1) && k <= WritesTo(st, n)
    ensures |r| == |d|
  {
    OpenAtomic(d, start, LOGSIZE - 1, PutsOf(st.txns), Puts(st.open[..n]), k);
    var e := OpenImage(d, start, LOGSIZE - 1, PutsOf(st.txns), Puts(st.open[..n]), k);
    Recovered(CrashedRecoveries(e, start, crashes), start)
  }

  /** A crash after any sector write of filewrite, also of the transaction that balloc puts an end to, as
      long as it keeps off the log: the next boot finds the file with a whole number of chunks written,
      those of the transactions that were committed, and every other file as it was. */
  lemma CrashInFilewrite(f0: FileSys, off0: nat, addr: seq<Byte>, st: Stages, home: bool, n: nat, start: nat, d: Image,
                         k: nat, crashes: seq<nat>)
    requires |st.views| == |st.txns| + 1 && f0.sb.size <= BPB && start == LogStart(f0.sb)
    requires Stopped(st.views[|st.txns|], st.open, home) && n <= |st.open| && Home(st.open[..n], start)
    requires Startable(d, start, LOGSIZE - 1) && SameHome(f0, d) && k <= WritesTo(st, n)
    requires StagesOk(f0, off0, addr, st)
    ensures AllAdmissible(PutsOf(st.txns), start, LOGSIZE - 1) && |st.owners| == |st.txns| + 1
    ensures Admissible(Puts(st.open[..n]), start, LOGSIZE - 1)
    ensures WrittenTo(f0, off0, addr, Min(ChunksDone(st, k) * CHUNK, |addr|),
                      Mounted(f0.sb, AfterCrash(start, st, n, d, k, crashes), f0.ip.inum), st.owners[ChunksDone(st, k)])
  {
    hide WrittenTo, Recovered, Recoverable, Chain, Mounted, OpenImage, Startable, StagesOk, AllAdmissible, Admissible,
      Puts, Stopped, Home, CrashedRecoveries;
    var txns, j := PutsOf(st.txns), ChunksDone(st, k);
    FilewriteFits(f0, off0, addr, st, start);
    FirstStageIs(f0, off0, addr, st);
    LastFrame(f0, off0, addr, st);
    StopFits(st.views[|st.txns|], st.open, home, n, start);
    OpenAtomic(d, start, LOGSIZE - 1, txns, Puts(st.open[..n]), k);
    ChainView(BlocksOf(st.views), st.txns, start, LOGSIZE - 1, j);
    StageFound(f0, off0, addr, st, j, AfterCrash(start, st, n, d, k, crashes));
  }

  lemma LastFrame(f0: FileSys, off0: nat, addr: seq<Byte>, st: Stages)
    requires StagesOk(f0, off0, addr, st)
    ensures |st.views| == |st.txns| + 1 && st.views[|st.txns|].sb == f0.sb
  {
    assert StageAt(f0, off0, addr, st, |st.txns|);
  }

  lemma FirstStageIs(f0: FileSys, off0: nat, addr: seq<Byte>, st: Stages)
    requires StagesOk(f0, off0, addr, st)
    ensures |st.views| == |st.owners| == |st.txns| + 1 && st.views[0] == f0
  {
    assert StageAt(f0, off0, addr, st, 0);
  }

  /** A disk with the home sectors of the j-th stage. */
  lemma StageFound(f0: FileSys, off0: nat, addr: seq<Byte>, st: Stages, j: nat, r: seq<Block>)
    requires StagesOk(f0, off0, addr, st) && j <= |st.txns| && Shape(f0)
    requires |st.views| == |st.txns| + 1 && |r| == f0.sb.size == |st.views[j].blocks|
    requires 0 <= LogStart(f0.sb) && r[..LogStart(f0.sb)] == st.views[j].blocks[..LogStart(f0.sb)]
    ensures |st.owners| == |st.txns| + 1
    ensures var g, m := Mounted(f0.sb, r, f0.ip.inum), Min(j * CHUNK, |addr|);
            WrittenTo(f0, off0, addr, m, g, st.owners[j])
  {
    assert StageAt(f0, off0, addr, st, j);
    hide Good, Contents, Splice, Size, Mounted;
    var f := st.views[j];
    GoodFacts(f, st.owners[j]);
    SameFiles(f, st.owners[j], r);
    OthersSame(f, Mounted(f0.sb, r, f0.ip.inum));
    OthersKeptTrans(f0, f, Mounted(f0.sb, r, f0.ip.inum));
  }

  lemma OthersSame(f: FileSys, g: FileSys)
    requires SameFrame(f, g)
    requires forall i :: 0 <= i < f.sb.ninodes ==>
               Size(f, i) <= MAXFILE * BSIZE && Size(g, i) == Size(f, i) && Contents(g, i) == Contents(f, i)
    ensures OthersKept(f, g)
  {
    hide Size, Contents;
  }
}
