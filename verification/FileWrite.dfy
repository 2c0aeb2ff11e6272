/** filewrite of file.c on an inode: the chunks that keep every transaction inside the log. */
module FileWrite {
  import opened Basics
  import opened Blocks
  import opened RedoLog
  import opened FileState
  import opened FileSteps
  import opened FileNeeds
  import opened FileWriting
  import opened Scripts
  import opened Transactions
  import opened Fs

  /** The result of filewrite: all bytes written, the result -1 after the first k of them, or one of
      the two ends of balloc. */
  datatype FileResult = AllWritten | Failed(k: nat) | RanOut | WentIntoLog

  /** How many bytes writei accepts, a chunk at a time. */
  function Accepted(size: nat, off: nat, n: nat): (k: nat)
    ensures k <= n && (k > 0 ==> off <= size && off + k <= MAXFILE * BSIZE)
  {
    if off > size || off > MAXFILE * BSIZE then 0
    else if off + n <= MAXFILE * BSIZE then n
    else (MAXFILE * BSIZE - off) / 1536 * 1536
  }

  /** How a write of n bytes at off ends: everything writei accepts is written if there are blocks
      for it, and nothing else decides. */
  ghost function Ending(f: FileSys, off: nat, n: nat): (r: FileResult)
    requires Shape(f)
  {
    var k := Accepted(f.ip.size, off, n);
    if Left(f) < WriteNeed(f, off, k) then if LogClear(f) then WentIntoLog else RanOut
    else if k == n then AllWritten else Failed(k)
  }

  /** The transactions that were committed, the file system before the first and after each, and the
      operations of the transaction that balloc has put an end to, if any. */
  datatype Stages = Stages(txns: seq<seq<Op>>, views: seq<FileSys>, owners: seq<Owner>, open: seq<Op>)

  /** How many chunks are committed when a write of n bytes at off ends as Ending says: with the j-th the
      blocks suffice, and with one more they do not, or there is no more to write or to accept. */
  ghost predicate Chunks(f: FileSys, off: nat, n: nat, j: nat)
    requires Shape(f)
  {
    var k := Accepted(f.ip.size, off, n);
    && j * 1536 < n + 1536 && Min(j * 1536, n) <= k
    && Left(f) >= WriteNeed(f, off, Min(j * 1536, n))
    && (Min(j * 1536, n) < k ==> Left(f) < WriteNeed(f, off, Min((j + 1) * 1536, k)))
  }

  class OpenFile {
    const fs: FileSystem
    const ip: MemInode
    const writable: bool
    var off: Word

    constructor (fs: FileSystem, ip: MemInode, writable: bool, off: Word)
      ensures this.fs == fs && this.ip == ip && this.writable == writable && this.off == off
    {
      this.fs, this.ip, this.writable, this.off := fs, ip, writable, off;
    }

    ghost predicate Valid()
      reads this, fs, ip
    {
      Good(fs.View(ip), fs.owner) && fs.View(ip).ip.size <= MAXFILE * BSIZE && fs.Traced() && fs.HeldNow() == {}
    }

    ghost function Bytes(): seq<Byte>
      requires Valid()
      reads this, fs, ip
    {
      Contents(fs.View(ip), ip.inum)
    }

    /** Write addr at the file offset, a few blocks per transaction. A chunk that writei refuses leaves an
        empty transaction, which is committed too. */
    method Filewrite(addr: seq<Byte>) returns (r: FileResult, ghost st: Stages)
      requires Valid() && |addr| < 0x8000_0000
      modifies this, fs, ip
      ensures |st.views| == |st.txns| + 1
      ensures fs.done == old(fs.done) + st.txns + if writable && r.Failed? then [[]] else []
      ensures !writable ==> r == Failed(0) && fs.View(ip) == old(fs.View(ip)) && off == old(off)
      ensures writable ==>
                && r == Ending(old(fs.View(ip)), old(off), |addr|)
                && Chunks(old(fs.View(ip)), old(off), |addr|, |st.txns|)
      ensures st.open == if r.RanOut? || r.WentIntoLog? then fs.tx.ops else []
      ensures Stopped(st.views[|st.txns|], st.open, !r.WentIntoLog?)
      ensures r.AllWritten? || r.Failed? ==>
                var k := if r.Failed? then r.k else |addr|;
                && k <= |addr| && Valid() && off == old(off) + k && (k > 0 ==> old(off) <= |old(Bytes())|)
                && Bytes() == (if k == 0 then old(Bytes()) else Splice(old(Bytes()), old(off), addr[..k]))
                && OthersKept(old(fs.View(ip)), fs.View(ip))
                && st.views[|st.txns|] == fs.View(ip)
      ensures StagesOk(old(fs.View(ip)), old(off), addr, st)
      ensures fs.Boot() == old(fs.Boot())
    {
      hide Good, Contents, Splice, Size, Left, WriteNeed, LogClear, FileSystem.Traced, FileSystem.HeldNow, OthersKept,
        FileSystem.UsedNow, FileSystem.Boot, StagesOk, Ending, Step, Fetched, Progress, ChunkDone, Chunks, Stopped;
      ghost var f0, off0 := fs.View(ip), off;
      st := Stages([], [f0], [fs.owner], []);
      ProgressStart(f0, fs.owner, off, addr);
      NotStopped(f0);
      if !writable {
        return Failed(0), st;
      }
      var i := 0;
      while i < |addr|
        invariant 0 <= i <= |addr| && off == off0 + i
        invariant Valid() && StagesOk(f0, off0, addr, st) && Progress(f0, off0, addr, st, fs.View(ip), i)
        invariant fs.done == old(fs.done) + st.txns && st.open == [] && fs.Boot() == old(fs.Boot())
      {
        var n1 := Min(|addr| - i, CHUNK);
        ghost var f := fs.View(ip);
        NextChunk(f0, f, off0, addr, st, i);
        var w;
        ghost var ops;
        w, ops := fs.WriteTransaction(ip, addr[i..i + n1], off);
        if w.Refused? || w.Wrote? {
          GoodFacts(fs.View(ip), fs.owner);
        }
        if !w.Wrote? {
          ChunksNow(f0, f, off0, addr, st, i);
        }
        if w.Refused? {
          NotStopped(f);
          return Failed(i), st;
        }
        if !w.Wrote? {
          OpenAfter(f0, off0, addr, st, ops);
          st := st.(open := ops);
          r := if w.OutOfBlocks? then RanOut else WentIntoLog;
          return;
        }
        ProgressNext(f0, f, fs.View(ip), fs.owner, off0, addr, st, ops, i);
        st := Extended(st, ops, fs.View(ip), fs.owner);
        off := off + n1;
        i := i + n1;
      }
      WrittenAll(f0, fs.View(ip), off0, addr, st);
      ChunksNow(f0, fs.View(ip), off0, addr, st, i);
      NotStopped(fs.View(ip));
      r := AllWritten;
    }
  }

  lemma OthersKeptTrans(f0: FileSys, f: FileSys, g: FileSys)
    requires OthersKept(f0, f) && OthersKept(f, g)
    ensures OthersKept(f0, g)
  {
    hide Size, Contents;
  }

  // ----- the stages of a write -----

  /** f is f0 with the first m bytes of addr written at off0, as far as the files go. */
  ghost predicate WrittenTo(f0: FileSys, off0: nat, addr: seq<Byte>, m: nat, f: FileSys, owner: Owner) {
    && Good(f, owner) && OthersKept(f0, f) && m <= |addr|
    && Size(f0, f0.ip.inum) <= MAXFILE * BSIZE && Size(f, f0.ip.inum) <= MAXFILE * BSIZE
    && (m == 0 ==> Contents(f, f0.ip.inum) == Contents(f0, f0.ip.inum))
    && (m > 0 ==>
          && off0 <= Size(f0, f0.ip.inum)
          && Contents(f, f0.ip.inum) == Splice(Contents(f0, f0.ip.inum), off0, addr[..m]))
  }

  ghost predicate Stage(f0: FileSys, off0: nat, addr: seq<Byte>, m: nat, f: FileSys, owner: Owner) {
    WrittenTo(f0, off0, addr, m, f, owner) && (m == 0 ==> f == f0)
  }

  ghost predicate StagesOk(f0: FileSys, off0: nat, addr: seq<Byte>, st: Stages) {
    && |st.views| == |st.owners| == |st.txns| + 1
    && (forall j :: 0 <= j <= |st.txns| ==> StageAt(f0, off0, addr, st, j))
    && (forall j :: 0 <= j < |st.txns| ==> StepAt(st, j))
  }

  /** After j transactions, j chunks are written. */
  ghost predicate StageAt(f0: FileSys, off0: nat, addr: seq<Byte>, st: Stages, j: nat)
    requires j < |st.views| == |st.owners|
  {
    Stage(f0, off0, addr, Min(j * CHUNK, |addr|), st.views[j], st.owners[j])
  }

  ghost predicate StepAt(st: Stages, j: nat)
    requires j < |st.txns| && |st.views| == |st.txns| + 1
  {
    Step(st.views[j], st.txns[j], st.views[j + 1])
  }

  /** One more transaction. */
  ghost function Extended(st: Stages, ops: seq<Op>, g: FileSys, go: Owner): Stages {
    Stages(st.txns + [ops], st.views + [g], st.owners + [go], [])
  }

  lemma ExtendedIs(st: Stages, ops: seq<Op>, g: FileSys, go: Owner)
    requires |st.views| == |st.owners| == |st.txns| + 1
    ensures var st' := Extended(st, ops, g, go);
            && |st'.txns| == |st.txns| + 1 && |st'.views| == |st'.owners| == |st'.txns| + 1
            && st'.views[|st'.txns|] == g
  {
  }

  lemma ViewsAre(f0: FileSys, off0: nat, addr: seq<Byte>, st: Stages)
    requires StagesOk(f0, off0, addr, st)
    ensures |st.views| == |st.owners| == |st.txns| + 1
  {
  }

  /** How long the file is at the last stage. */
  lemma SizeSoFar(f0: FileSys, off0: nat, addr: seq<Byte>, st: Stages)
    requires StagesOk(f0, off0, addr, st)
    ensures var f, m := st.views[|st.txns|], Min(|st.txns| * CHUNK, |addr|);
            && Shape(f) && SameFrame(f0, f) && f.ip.size == Size(f, f0.ip.inum) <= MAXFILE * BSIZE
            && (m > 0 ==> off0 + m <= f.ip.size)
            && Stage(f0, off0, addr, m, f, st.owners[|st.txns|])
  {
    assert StageAt(f0, off0, addr, st, |st.txns|);
    GoodFacts(st.views[|st.txns|], st.owners[|st.txns|]);
    hide Good;
  }

  lemma FirstStage(f: FileSys, owner: Owner, off: nat, addr: seq<Byte>)
    requires Good(f, owner)
    ensures StagesOk(f, off, addr, Stages([], [f], [owner], []))
  {
    GoodFacts(f, owner);
  }

  lemma OpenAfter(f0: FileSys, off0: nat, addr: seq<Byte>, st: Stages, ops: seq<Op>)
    requires StagesOk(f0, off0, addr, st)
    ensures StagesOk(f0, off0, addr, st.(open := ops))
  {
    hide Stage, Step;
    forall j | 0 <= j <= |st.txns| ensures StageAt(f0, off0, addr, st.(open := ops), j) {
      assert StageAt(f0, off0, addr, st, j);
    }
    forall j | 0 <= j < |st.txns| ensures StepAt(st.(open := ops), j) {
      assert StepAt(st, j);
    }
  }

  lemma LastStage(f0: FileSys, off0: nat, addr: seq<Byte>, st: Stages, i: nat)
    requires StagesOk(f0, off0, addr, st) && i == Min(|st.txns| * CHUNK, |addr|)
    ensures |st.views| == |st.txns| + 1
    ensures var f := st.views[|st.txns|];
            && OthersKept(f0, f)
            && Size(f0, f0.ip.inum) <= MAXFILE * BSIZE && Size(f, f0.ip.inum) <= MAXFILE * BSIZE
            && (i > 0 ==> off0 <= Size(f0, f0.ip.inum))
            && Contents(f, f0.ip.inum)
               == if i == 0 then Contents(f0, f0.ip.inum) else Splice(Contents(f0, f0.ip.inum), off0, addr[..i])
  {
    assert StageAt(f0, off0, addr, st, |st.txns|);
    hide Good, Contents, Splice, Size;
  }

  /** A chunk of n bytes behind the first i. */
  lemma ChunkStage(f0: FileSys, g: FileSys, go: Owner, off0: nat, addr: seq<Byte>, st: Stages, ops: seq<Op>,
                   i: nat, n: nat)
    requires StagesOk(f0, off0, addr, st) && Reached(|st.txns|, i, |addr|) && i < |addr|
    requires n == Min(|addr| - i, CHUNK)
    requires Good(g, go) && ChunkDone(st.views[|st.txns|], ops, g, off0 + i, addr[i..i + n])
    ensures StagesOk(f0, off0, addr, Extended(st, ops, g, go))
  {
    hide Good, Step, Stage, Spliced;
    var k := |st.txns|;
    var st' := Extended(st, ops, g, go);
    assert StageAt(f0, off0, addr, st, k);
    NextStage(f0, off0, addr, st.views[k], st.owners[k], g, go, i, n);
    assert StageAt(f0, off0, addr, st', k + 1);
    forall j | 0 <= j <= k ensures StageAt(f0, off0, addr, st', j) {
      assert StageAt(f0, off0, addr, st, j);
    }
    forall j | 0 <= j <= k ensures StepAt(st', j) {
      if j < k {
        assert StepAt(st, j);
      }
    }
  }

  lemma NextStage(f0: FileSys, off0: nat, addr: seq<Byte>, f: FileSys, fo: Owner, g: FileSys, go: Owner, i: nat, n: nat)
    requires Stage(f0, off0, addr, i, f, fo) && Good(g, go) && 0 < n && i + n <= |addr|
    requires Spliced(f, g, off0 + i, addr[i..i + n])
    ensures Stage(f0, off0, addr, i + n, g, go)
  {
    hide Good, Contents, Splice, Size, Fetched;
    OthersKeptTrans(f0, f, g);
    hide OthersKept;
    if i > 0 {
      assert addr[..i] + addr[i..i + n] == addr[..i + n];
      SpliceTwice(Contents(f0, f0.ip.inum), off0, addr[..i], addr[i..i + n]);
    } else {
      assert addr[0..n] == addr[..n];
    }
  }

  // ----- the blocks a write takes -----

  /** The chunks writei accepts are the first ones. */
  lemma Accepting(size: nat, off: nat, total: nat, j: nat)
    requires j * CHUNK < total && j * CHUNK <= Accepted(size, off, total) && size <= MAXFILE * BSIZE
    ensures var i := j * CHUNK; var n, k := Min(total - i, CHUNK), Accepted(size, off, total);
            && (i < k ==> i + n <= k && off + k <= MAXFILE * BSIZE && off <= size)
            && (i == k ==> off > size || off + i + n > MAXFILE * BSIZE)
  {
    if off <= size && off + total > MAXFILE * BSIZE {
      Floors(MAXFILE * BSIZE - off, j);
    }
  }

  /** The j-th multiple of CHUNK against the last one that is not above x. */
  lemma Floors(x: nat, j: nat)
    requires j * CHUNK <= x / CHUNK * CHUNK
    ensures j * CHUNK < x / CHUNK * CHUNK ==> (j + 1) * CHUNK <= x / CHUNK * CHUNK <= x
    ensures j * CHUNK == x / CHUNK * CHUNK ==> x < (j + 1) * CHUNK
  {
  }

  /** The number of chunks that a write commits is determined. */
  lemma ChunksOnce(f: FileSys, off: nat, n: nat, j: nat, j': nat)
    requires Shape(f) && Chunks(f, off, n, j) && Chunks(f, off, n, j') && j <= j'
    ensures j == j'
  {
    hide Left, WriteNeed;
    if j < j' {
      assert (j + 1) * CHUNK <= j' * CHUNK;
      WriteNeedGrows(f, off, Min((j + 1) * CHUNK, Accepted(f.ip.size, off, n)), Min(j' * CHUNK, n));
    }
  }

  // ----- the loop of filewrite -----

  /** j chunks of total bytes are i bytes. */
  predicate Reached(j: nat, i: nat, total: nat) {
    i == Min(j * CHUNK, total) && j * CHUNK < total + CHUNK
  }

  /** The first i bytes are written, in the transactions of st, and writei accepts at least that much. */
  ghost predicate Progress(f0: FileSys, off0: nat, addr: seq<Byte>, st: Stages, f: FileSys, i: nat) {
    && |st.views| == |st.txns| + 1 && st.views[|st.txns|] == f && i <= |addr|
    && Reached(|st.txns|, i, |addr|)
    && StagesOk(f0, off0, addr, st) && FetchedSoFar(f0, f, off0, i) && i <= Accepted(f0.ip.size, off0, |addr|)
  }

  lemma ProgressStart(f: FileSys, owner: Owner, off: nat, addr: seq<Byte>)
    requires Good(f, owner)
    ensures Shape(f) && Size(f, f.ip.inum) <= MAXFILE * BSIZE && OthersKept(f, f)
    ensures StagesOk(f, off, addr, Stages([], [f], [owner], []))
    ensures Progress(f, off, addr, Stages([], [f], [owner], []), f, 0)
  {
    GoodFacts(f, owner);
    FirstStage(f, owner, off, addr);
  }

  /** Before the next chunk: whether writei will take it, and whether there are blocks for it, as told by
      the whole write; and what has been written so far. */
  lemma NextChunk(f0: FileSys, f: FileSys, off0: nat, addr: seq<Byte>, st: Stages, i: nat)
    requires Progress(f0, off0, addr, st, f, i) && i < |addr|
    ensures Shape(f) && SameFrame(f0, f) && Size(f0, f0.ip.inum) <= MAXFILE * BSIZE
    ensures Size(f, f0.ip.inum) <= MAXFILE * BSIZE
    ensures |st.views| == |st.txns| + 1 && st.views[|st.txns|] == f && OthersKept(f0, f)
    ensures Size(f, f.ip.inum) == f.ip.size && (i > 0 ==> off0 <= Size(f0, f0.ip.inum))
    ensures Contents(f, f0.ip.inum)
            == if i == 0 then Contents(f0, f0.ip.inum) else Splice(Contents(f0, f0.ip.inum), off0, addr[..i])
    ensures var n, total := Min(|addr| - i, CHUNK), |addr|;
            && (off0 + i > f.ip.size || off0 + i + n > MAXFILE * BSIZE ==>
                  Ending(f0, off0, total) == Failed(i) && Accepted(f0.ip.size, off0, total) == i)
            && (off0 + i <= f.ip.size && off0 + i + n <= MAXFILE * BSIZE ==>
                  && i + n <= Accepted(f0.ip.size, off0, total)
                  && (Left(f) < WriteNeed(f, off0 + i, n) ==>
                        Ending(f0, off0, total) == if LogClear(f) then WentIntoLog else RanOut))
  {
    hide Progress, Left, WriteNeed, LogClear, FetchedSoFar, StagesOk, Contents, Splice, Size, OthersKept, Ending,
      Accepted;
    ProgressIs(f0, f, off0, addr, st, i);
    NextNeeds(f0, f, off0, i, |st.txns|, |addr|);
  }

  lemma ProgressIs(f0: FileSys, f: FileSys, off0: nat, addr: seq<Byte>, st: Stages, i: nat)
    requires Progress(f0, off0, addr, st, f, i) && i < |addr|
    ensures FetchedSoFar(f0, f, off0, i) && i == |st.txns| * CHUNK && i <= Accepted(f0.ip.size, off0, |addr|)
    ensures Reached(|st.txns|, i, |addr|)
    ensures SameFrame(f0, f) && Size(f0, f0.ip.inum) <= MAXFILE * BSIZE && Size(f, f0.ip.inum) <= MAXFILE * BSIZE
    ensures |st.views| == |st.owners| == |st.txns| + 1 && st.views[|st.txns|] == f && OthersKept(f0, f)
    ensures StagesOk(f0, off0, addr, st)
    ensures Size(f, f.ip.inum) == f.ip.size && (i > 0 ==> off0 <= Size(f0, f0.ip.inum) && off0 + i <= f.ip.size)
    ensures Contents(f, f0.ip.inum)
            == if i == 0 then Contents(f0, f0.ip.inum) else Splice(Contents(f0, f0.ip.inum), off0, addr[..i])
  {
    hide FetchedSoFar, StagesOk, Contents, Splice, Size, OthersKept, Accepted;
    ViewsAre(f0, off0, addr, st);
    SizeSoFar(f0, off0, addr, st);
    LastStage(f0, off0, addr, st, i);
    SizesSame(f);
  }

  lemma NextNeeds(f0: FileSys, f: FileSys, off0: nat, i: nat, j: nat, total: nat)
    requires Shape(f0) && FetchedSoFar(f0, f, off0, i) && i < total && i == j * CHUNK
    requires Size(f0, f0.ip.inum) <= MAXFILE * BSIZE && i <= Accepted(f0.ip.size, off0, total)
    requires i > 0 ==> off0 + i <= f.ip.size <= MAXFILE * BSIZE
    ensures var n := Min(total - i, CHUNK);
            && (off0 + i > f.ip.size || off0 + i + n > MAXFILE * BSIZE ==>
                  Ending(f0, off0, total) == Failed(i) && Accepted(f0.ip.size, off0, total) == i)
            && (off0 + i <= f.ip.size && off0 + i + n <= MAXFILE * BSIZE ==>
                  && i + n <= Accepted(f0.ip.size, off0, total)
                  && (Left(f) < WriteNeed(f, off0 + i, n) ==>
                        Ending(f0, off0, total) == if LogClear(f) then WentIntoLog else RanOut))
  {
    hide Left, WriteNeed, LogClear, FetchedSoFar, Size;
    var n, k := Min(total - i, CHUNK), Accepted(f0.ip.size, off0, total);
    SoFarShape(f0, f, off0, i);
    SizesSame(f0);
    Accepting(f0.ip.size, off0, total, j);
    if i < k {
      NeedMore(f0, f, off0, i, n);
      WriteNeedGrows(f0, off0, i + n, k);
    } else {
      NeedMore(f0, f, off0, i, 0);
    }
  }

  /** Where the loop ends: all is written, or no more accepted, or the next chunk does not get its blocks. */
  lemma ChunksNow(f0: FileSys, f: FileSys, off0: nat, addr: seq<Byte>, st: Stages, i: nat)
    requires Progress(f0, off0, addr, st, f, i) && Shape(f0) && Shape(f)
    requires var n, k := Min(|addr| - i, CHUNK), Accepted(f0.ip.size, off0, |addr|);
             i < k ==> i + n <= k && Left(f) < WriteNeed(f, off0 + i, n)
    ensures Chunks(f0, off0, |addr|, |st.txns|)
  {
    hide Left, WriteNeed, LogClear, StagesOk, FetchedSoFar, Accepted;
    var j, n, k := |st.txns|, Min(|addr| - i, CHUNK), Accepted(f0.ip.size, off0, |addr|);
    ChunkIndex(j, i, |addr|, k);
    SoFarShape(f0, f, off0, i);
    NeedMore(f0, f, off0, i, 0);
    if i < k {
      NeedMore(f0, f, off0, i, n);
    }
  }

  lemma ChunkIndex(j: nat, i: nat, total: nat, k: nat)
    requires i == Min(j * CHUNK, total) && i <= k <= total
    ensures var n := Min(total - i, CHUNK); i < k && i + n <= k ==> i + n == Min((j + 1) * CHUNK, k)
  {
  }

  lemma NotStopped(f: FileSys)
    requires Shape(f)
    ensures Stopped(f, [], true)
  {
    assert HomeOf(Used([]), LogStart(f.sb)) == {};
  }

  lemma SizesSame(f: FileSys)
    requires Shape(f)
    ensures Size(f, f.ip.inum) == f.ip.size
  {
  }

  lemma ProgressNext(f0: FileSys, f: FileSys, g: FileSys, go: Owner, off0: nat, addr: seq<Byte>, st: Stages,
                     ops: seq<Op>, i: nat)
    requires Progress(f0, off0, addr, st, f, i) && i < |addr| && Good(g, go)
    requires var n := Min(|addr| - i, CHUNK);
             && i + n <= Accepted(f0.ip.size, off0, |addr|) && ChunkDone(f, ops, g, off0 + i, addr[i..i + n])
    ensures var st' := Extended(st, ops, g, go);
            StagesOk(f0, off0, addr, st') && Progress(f0, off0, addr, st', g, i + Min(|addr| - i, CHUNK))
  {
    hide Good, Contents, Splice, Size, ChunkDone, FetchedSoFar, Accepted, StagesOk, OthersKept, Progress, Min,
      Extended, Reached;
    var st' := Extended(st, ops, g, go);
    ProgressIs(f0, f, off0, addr, st, i);
    ExtendedIs(st, ops, g, go);
    NextIndex(|st.txns|, i, |addr|);
    var n := Min(|addr| - i, CHUNK);
    ChunkFetches(f0, f, ops, g, off0, i, addr[i..i + n]);
    ChunkStage(f0, g, go, off0, addr, st, ops, i, n);
    ProgressMade(f0, g, off0, addr, st', i + n);
  }

  lemma ChunkFetches(f0: FileSys, f: FileSys, ops: seq<Op>, g: FileSys, off0: nat, i: nat, src: seq<Byte>)
    requires FetchedSoFar(f0, f, off0, i) && ChunkDone(f, ops, g, off0 + i, src)
    ensures FetchedSoFar(f0, g, off0, i + |src|)
  {
    hide Contents, Splice, Size, Step, Fetched, FetchedSoFar, OthersKept;
    FetchedMore(f0, f, g, off0, i, |src|);
  }

  lemma NextIndex(j: nat, i: nat, total: nat)
    requires Reached(j, i, total) && i < total
    ensures var n := Min(total - i, CHUNK); 0 < n && i + n <= total && Reached(j + 1, i + n, total)
  {
  }

  lemma ProgressMade(f0: FileSys, g: FileSys, off0: nat, addr: seq<Byte>, st: Stages, i: nat)
    requires |st.views| == |st.txns| + 1 && st.views[|st.txns|] == g
    requires StagesOk(f0, off0, addr, st) && FetchedSoFar(f0, g, off0, i)
    requires Reached(|st.txns|, i, |addr|) && i <= |addr| && i <= Accepted(f0.ip.size, off0, |addr|)
    ensures Progress(f0, off0, addr, st, g, i)
  {
    hide FetchedSoFar, Accepted, StagesOk, Reached;
  }

  /** At the end everything has been accepted, and there were blocks for it. */
  lemma WrittenAll(f0: FileSys, f: FileSys, off0: nat, addr: seq<Byte>, st: Stages)
    requires Progress(f0, off0, addr, st, f, |addr|)
    ensures Shape(f0) && Ending(f0, off0, |addr|) == AllWritten
    ensures |st.views| == |st.txns| + 1 && st.views[|st.txns|] == f && OthersKept(f0, f)
    ensures Shape(f) && SameFrame(f0, f) && Size(f0, f0.ip.inum) <= MAXFILE * BSIZE
    ensures Size(f, f0.ip.inum) <= MAXFILE * BSIZE
    ensures addr != [] ==> off0 <= Size(f0, f0.ip.inum)
    ensures Contents(f, f0.ip.inum)
            == if addr == [] then Contents(f0, f0.ip.inum) else Splice(Contents(f0, f0.ip.inum), off0, addr[..|addr|])
  {
    LastStage(f0, off0, addr, st, |addr|);
    hide Left, WriteNeed, LogClear, FetchedSoFar, StagesOk, Contents, Splice, Size, OthersKept;
    SoFarShape(f0, f, off0, |addr|);
    NeedMore(f0, f, off0, |addr|, 0);
  }

  lemma SoFarShape(f0: FileSys, f: FileSys, off: nat, i: nat)
    requires FetchedSoFar(f0, f, off, i)
    ensures Shape(f0) && Shape(f) && (i > 0 ==> off + i <= MAXFILE * BSIZE) && (i == 0 ==> f == f0)
    ensures LogClear(f) <==> LogClear(f0)
  {
    hide Slot, Bit, Need, Left, LogClear;
  }

  /** Two adjacent writes are one. */
  lemma SpliceTwice(c: seq<Byte>, off: nat, a: seq<Byte>, b: seq<Byte>)
    requires off <= |c|
    ensures Splice(Splice(c, off, a), off + |a|, b) == Splice(c, off, a + b)
  {
    var s := Splice(c, off, a);
    assert s[..off + |a|] == c[..off] + a;
    if off + |a| + |b| < |c| {
      assert s[off + |a| + |b|..] == c[off + |a| + |b|..];
    }
  }
}
