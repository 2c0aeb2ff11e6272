/** How the buffer cache, the disk and the in-memory log header agree, between operations
    of log.c and while a log is being installed. */
module CacheAgreement {
  import opened Basics
  import opened Blocks
  import opened RedoLog
  import opened Transactions
  import opened BufferCache

  // ----- agreement of cache, header and disk -----

  /** What bread must return for a sector: the logged block if there is one. */
  function Latest(d: Image, start: nat, lh: seq<Word>, s: Word): Block
    requires start + |lh| < |d| && s < |d|
  {
    if s < start then View(d, start, lh, s) else d[s]
  }

  /** Buffers belong to the root disk, or to nobody and are unused. */
  ghost predicate Devices(es: map<Buf, BufState>) {
    forall b :: b in es ==>
      && (es[b].dev == ROOTDEV || es[b].dev == NODEV)
      && (es[b].dev == NODEV ==> !es[b].busy && !es[b].dirty && !es[b].valid)
      && (es[b].dirty ==> es[b].valid)
  }

  /** A buffer that nobody holds is valid and carries the latest contents of its sector. */
  ghost predicate Settled(es: map<Buf, BufState>, d: Image, start: nat, lh: seq<Word>)
    requires start + |lh| < |d|
  {
    forall b :: b in es && es[b].dev == ROOTDEV && !es[b].busy ==>
      && es[b].valid
      && es[b].sector < |d|
      && es[b].data == Latest(d, start, lh, es[b].sector)
  }

  /** The i-th logged sector sits in the dirty buffer pins[i], and no other buffer is dirty. */
  ghost predicate PinsOk(es: map<Buf, BufState>, lh: seq<Word>, pins: seq<Buf>) {
    && |pins| == |lh|
    && (forall i :: 0 <= i < |pins| ==> Holds(es, pins[i], ROOTDEV, lh[i]) && es[pins[i]].dirty)
    && (forall b :: b in es && es[b].dirty ==> b in pins)
  }

  ghost predicate NoneBusy(es: map<Buf, BufState>) {
    forall b :: b in es ==> !es[b].busy
  }

  /** Only home sectors are ever held, and what is held has been read. */
  ghost predicate HeldIsHome(es: map<Buf, BufState>, start: nat) {
    forall b :: b in es && es[b].busy ==> es[b].valid && es[b].dev == ROOTDEV && es[b].sector < start
  }

  /** The cache, the disk, the position of the header, the in-memory header, the dirty buffers. */
  datatype Storage = Storage(es: map<Buf, BufState>, d: Image, start: nat, lh: seq<Word>, pins: seq<Buf>)

  ghost predicate Agree(v: Storage) {
    match v
    case Storage(es, d, start, lh, pins) =>
      && start + |lh| < |d|
      && Devices(es)
      && HeldIsHome(es, start)
      && Settled(es, d, start, lh)
      && PinsOk(es, lh, pins)
  }

  /** The agreement that holds outside commit and recovery. */
  ghost predicate StorageOk(v: Storage, cap: nat) {
    match v
    case Storage(es, d, start, lh, pins) =>
      && Agree(v)
      && Geometry(d, start, cap) && Quiescent(d, start)
      && |lh| <= cap && |lh| < NBUF
      && Distinct(lh) && forall i :: 0 <= i < |lh| ==> lh[i] < start
  }

  // ----- install -----

  /** While blocks are copied home: nothing is held, clean buffers equal the disk, and either the
      sectors still to be copied are pinned in ps (commit) or nothing is dirty (recovery). */
  ghost predicate Installing(es: map<Buf, BufState>, d: Image, start: nat, secs: seq<Word>, k: nat, ps: seq<Buf>) {
    && Devices(es) && NoneBusy(es)
    && (forall b :: b in es && es[b].dev == ROOTDEV && !es[b].dirty ==>
          es[b].valid && es[b].sector < |d| && es[b].data == d[es[b].sector])
    && Fits(d, start, secs) && k <= |secs|
    && (ps == [] || (|ps| == |secs| < NBUF))
    && (forall i :: k <= i < |ps| ==> Holds(es, ps[i], ROOTDEV, secs[i]) && es[ps[i]].dirty)
    && (forall b :: b in es && es[b].dirty ==> exists i :: k <= i < |ps| && ps[i] == b)
  }

  /** A cache fresh from binit is one that recovery may start from. */
  lemma FreshCache(es: map<Buf, BufState>, d: Image, start: nat)
    requires forall b :: b in es ==> es[b] == BufState(false, false, false, NODEV, 0, ZERO_BLOCK)
    requires start < |d|
    ensures Installing(es, d, start, [], 0, [])
  {
  }

  lemma InstallingFacts(es: map<Buf, BufState>, d: Image, start: nat, secs: seq<Word>, k: nat, ps: seq<Buf>)
    requires Installing(es, d, start, secs, k, ps)
    ensures DirtyIsValid(es)
    ensures forall b :: b in es ==> !es[b].busy
    ensures Fits(d, start, secs) && k <= |secs|
  {
  }

  /** Some buffer is neither held nor dirty. */
  lemma HasRoom(ring: seq<Buf>, head: Buf, bufs: seq<Buf>, es: map<Buf, BufState>, d: Image, start: nat,
                secs: seq<Word>, k: nat, ps: seq<Buf>)
    requires Installing(es, d, start, secs, k, ps) && RingOf(ring, head, bufs)
    requires forall b :: b in bufs <==> b in es
    ensures exists b :: b in bufs && !Pinned(es[b])
  {
    Pigeonhole(bufs, ps);
    var b :| b in bufs && b !in ps;
    assert !Pinned(es[b]);
  }

  /** What bread finds for a sector that no dirty buffer holds. */
  lemma CleanRead(es: map<Buf, BufState>, d: Image, start: nat, secs: seq<Word>, k: nat, ps: seq<Buf>, l: Buf, s: Word)
    requires Installing(es, d, start, secs, k, ps) && start <= s < |d| && l in es
    requires Holds(es, l, ROOTDEV, s) || !es[l].dirty
    ensures !es[l].dirty
    ensures Holds(es, l, ROOTDEV, s) ==> es[l].valid && es[l].data == d[s]
  {
  }

  /** Writing a block through a buffer that is not dirty keeps the state of the install. */
  lemma CleanWrite(es: map<Buf, BufState>, d: Image, start: nat, secs: seq<Word>, k: nat, ps: seq<Buf>,
                   l: Buf, s: Word, block: Block)
    requires Installing(es, d, start, secs, k, ps) && Unique(es) && s < |d|
    requires l in es && !es[l].dirty
    requires Holds(es, l, ROOTDEV, s) || NotCached(es, ROOTDEV, s)
    ensures Installing(es[l := BufState(false, true, false, ROOTDEV, s, block)], d[s := block], start, secs, k, ps)
  {
    var es' := es[l := BufState(false, true, false, ROOTDEV, s, block)];
    forall b | b in es' && es'[b].dev == ROOTDEV && !es'[b].dirty
      ensures es'[b].valid && es'[b].sector < |d| && es'[b].data == d[s := block][es'[b].sector]
    {
      assert b != l ==> !Holds(es, b, ROOTDEV, s);
    }
  }

  /** With the log block held in l, the home sector can be read too. */
  lemma SecondRead(ring: seq<Buf>, head: Buf, bufs: seq<Buf>, es: map<Buf, BufState>, d: Image, start: nat,
                   secs: seq<Word>, k: nat, ps: seq<Buf>, l: Buf, t: BufState)
    requires Installing(es, d, start, secs, k, ps) && RingOf(ring, head, bufs) && k < |secs| && Distinct(ps)
    requires forall b :: b in bufs <==> b in es
    requires l in es && !es[l].dirty && t.busy && t.valid && !t.dirty && t.sector == start + 1 + k && t.dev == ROOTDEV
    ensures DirtyIsValid(es[l := t])
    ensures !Full(es[l := t], secs[k])
    ensures forall b :: b in es && Holds(es[l := t], b, ROOTDEV, secs[k]) ==> !es[l := t][b].busy && b != l
  {
    if ps == [] {
      Pigeonhole(bufs, [l]);
      var b :| b in bufs && b !in [l];
      assert !Pinned(es[l := t][b]);
    } else {
      assert Holds(es, ps[k], ROOTDEV, secs[k]) && ps[k] != l;
      assert Holds(es[l := t], ps[k], ROOTDEV, secs[k]);
    }
  }

  /** How the two buffers of a round may have come about. */
  ghost predicate Fetched(es: map<Buf, BufState>, l: Buf, x: Buf, s: Word, home: Word) {
    && l in es && !es[l].dirty && (Holds(es, l, ROOTDEV, s) || NotCached(es, ROOTDEV, s))
    && x in es && x != l
    && (Holds(es, x, ROOTDEV, home) || (!es[x].dirty && forall b :: b in es && b != l ==> !Holds(es, b, ROOTDEV, home)))
  }

  ghost function AfterInstall(es: map<Buf, BufState>, start: nat, secs: seq<Word>, k: nat, l: Buf, x: Buf, block: Block)
    : map<Buf, BufState>
    requires k < |secs| && start + 1 + k < 0x1_0000_0000
  {
    es[l := BufState(false, true, false, ROOTDEV, start + 1 + k, block)]
      [x := BufState(false, true, false, ROOTDEV, secs[k], block)]
  }

  lemma InstallStep(es: map<Buf, BufState>, d: Image, start: nat, secs: seq<Word>, k: nat, ps: seq<Buf>, l: Buf, x: Buf)
    requires Installing(es, d, start, secs, k, ps) && Unique(es) && k < |secs| && Distinct(ps)
    requires |d| < 0x1_0000_0000 && start + 1 + k < |d|
    requires Fetched(es, l, x, start + 1 + k, secs[k])
    ensures secs[k] < |d|
    ensures var block := d[start + 1 + k];
            Installing(AfterInstall(es, start, secs, k, l, x, block), d[secs[k] := block], start, secs, k + 1, ps)
  {
    InstallingFacts(es, d, start, secs, k, ps);
    hide Installing, Unique, Distinct, DirtyIsValid, Fetched, Holds, NotCached;
    var s, block := start + 1 + k, d[start + 1 + k];
    var e1 := es[l := BufState(false, true, false, ROOTDEV, s, block)];
    FetchedSecond(es, l, x, s, secs[k], block);
    CleanWrite(es, d, start, secs, k, ps, l, s, block);
    PutUnique(es, l, e1[l]);
    assert d[s := block] == d;
    SecondWrite(e1, d, start, secs, k, ps, x, block);
  }

  lemma FetchedSecond(es: map<Buf, BufState>, l: Buf, x: Buf, s: Word, home: Word, block: Block)
    requires Fetched(es, l, x, s, home) && s != home
    ensures l in es && !es[l].dirty && (Holds(es, l, ROOTDEV, s) || NotCached(es, ROOTDEV, s))
    ensures var e1 := es[l := BufState(false, true, false, ROOTDEV, s, block)];
            x in e1 && (Holds(e1, x, ROOTDEV, home) || (!e1[x].dirty && NotCached(e1, ROOTDEV, home)))
  {
  }

  /** The home sector is written through its buffer, or one that is not dirty. */
  lemma SecondWrite(es: map<Buf, BufState>, d: Image, start: nat, secs: seq<Word>, k: nat, ps: seq<Buf>, x: Buf,
                    block: Block)
    requires Installing(es, d, start, secs, k, ps) && Unique(es) && k < |secs| && Distinct(ps)
    requires x in es && secs[k] < |d|
    requires Holds(es, x, ROOTDEV, secs[k]) || (!es[x].dirty && NotCached(es, ROOTDEV, secs[k]))
    ensures Installing(es[x := BufState(false, true, false, ROOTDEV, secs[k], block)], d[secs[k] := block], start,
                       secs, k + 1, ps)
  {
    if ps == [] {
      NotDirty(es, d, start, secs, k, x);
      CleanWrite(es, d, start, secs, k, ps, x, secs[k], block);
      NextSame(es[x := BufState(false, true, false, ROOTDEV, secs[k], block)], d[secs[k] := block], start, secs, k);
    } else {
      PinnedWrite(es, d, start, secs, k, ps, x, block);
    }
  }

  lemma NotDirty(es: map<Buf, BufState>, d: Image, start: nat, secs: seq<Word>, k: nat, x: Buf)
    requires Installing(es, d, start, secs, k, []) && x in es
    ensures !es[x].dirty
  {
  }

  lemma NextSame(es: map<Buf, BufState>, d: Image, start: nat, secs: seq<Word>, k: nat)
    requires Installing(es, d, start, secs, k, []) && k < |secs|
    ensures Installing(es, d, start, secs, k + 1, [])
  {
  }

  /** Writing home the sector pinned in ps[k] releases that buffer. */
  lemma PinnedWrite(es: map<Buf, BufState>, d: Image, start: nat, secs: seq<Word>, k: nat, ps: seq<Buf>, x: Buf,
                    block: Block)
    requires Installing(es, d, start, secs, k, ps) && Unique(es) && k < |secs| && ps != [] && Distinct(ps)
    requires x in es && (Holds(es, x, ROOTDEV, secs[k]) || NotCached(es, ROOTDEV, secs[k]))
    ensures Installing(es[x := BufState(false, true, false, ROOTDEV, secs[k], block)], d[secs[k] := block], start,
                       secs, k + 1, ps)
  {
    var es' := es[x := BufState(false, true, false, ROOTDEV, secs[k], block)];
    assert Holds(es, ps[k], ROOTDEV, secs[k]);
    assert x == ps[k];
    forall b | b in es' && es'[b].dev == ROOTDEV && !es'[b].dirty
      ensures es'[b].valid && es'[b].sector < |d| && es'[b].data == d[secs[k] := block][es'[b].sector]
    {
      assert b != x ==> !Holds(es, b, ROOTDEV, secs[k]);
    }
    forall b | b in es' && es'[b].dirty
      ensures exists i :: k + 1 <= i < |ps| && ps[i] == b
    {
      var i :| k <= i < |ps| && ps[i] == b;
      assert i != k;
    }
  }

  lemma CommitStart(v: Storage, cap: nat)
    requires StorageOk(v, cap) && Unique(v.es) && NoneBusy(v.es)
    ensures Installing(v.es, v.d, v.start, v.lh, 0, v.pins)
    ensures Distinct(v.pins) && |v.lh| <= LOGSIZE && v.start + cap < |v.d| < 0x1_0000_0000 && |v.pins| == |v.lh|
  {
    PinsDistinct(v.es, v.lh, v.pins);
    forall b | b in v.es && v.es[b].dev == ROOTDEV && !v.es[b].dirty
      ensures v.es[b].valid && v.es[b].sector < |v.d| && v.es[b].data == v.d[v.es[b].sector]
    {
      forall i | 0 <= i < |v.lh|
        ensures v.lh[i] != v.es[b].sector
      {
        assert Holds(v.es, v.pins[i], ROOTDEV, v.lh[i]) && v.es[v.pins[i]].dirty;
      }
      IndexIs(v.lh, v.es[b].sector, |v.lh|);
    }
  }

  /** The disk when commit_trans has erased a log that was not empty. */
  ghost function Committed(d: Image, start: nat, lh: seq<Word>): Image
    requires Fits(d, start, lh)
  {
    HeaderRoundTrip(d[start], lh);
    Recovered(CommitHeader(d, start, lh), start)
  }

  /** When the log is erased nothing is dirty, and cache and disk agree again. */
  lemma CommitEnd(v: Storage, cap: nat, w: Storage)
    requires StorageOk(v, cap) && Fits(v.d, v.start, v.lh) && |v.pins| == |v.lh|
    requires w.d == Committed(v.d, v.start, v.lh) && w.start == v.start && w.lh == [] && w.pins == []
    requires Installing(w.es, w.d, v.start, v.lh, |v.lh|, v.pins)
    ensures StorageOk(w, cap) && NoneBusy(w.es)
  {
    HeaderRoundTrip(v.d[v.start], v.lh);
    RecoveredQuiescent(CommitHeader(v.d, v.start, v.lh), v.start);
  }

  lemma CommitNothing(v: Storage, cap: nat)
    requires StorageOk(v, cap) && |v.lh| == 0
    ensures Fits(v.d, v.start, v.lh) && CommitSteps(v.d, v.start, v.lh) == []
  {
  }

  lemma RecoveryStart(es: map<Buf, BufState>, d: Image, start: nat, secs: seq<Word>)
    requires Installing(es, d, start, [], 0, []) && Fits(d, start, secs)
    ensures Installing(es, d, start, secs, 0, []) && Distinct<Buf>([])
  {
  }

  lemma RecoveryEnd(d: Image, start: nat, cap: nat, secs: seq<Word>, w: Storage)
    requires Geometry(d, start, cap) && Recoverable(d, start) && secs == HeaderSectors(d[start])
    requires w.d == Recovered(d, start) && w.start == start && w.lh == [] && w.pins == []
    requires Installing(w.es, w.d, start, secs, |secs|, [])
    ensures StorageOk(w, cap) && NoneBusy(w.es)
  {
    RecoveredQuiescent(d, start);
  }

  /** l was free for log_write of b to use as the buffer of log block s. */
  ghost predicate LogBlock(v: Storage, b: Buf, l: Buf, s: Word) {
    match v
    case Storage(es, d, start, lh, pins) =>
      && l in es && !es[l].busy && !es[l].dirty && l != b && l !in pins
      && (NotCached(es, ROOTDEV, s) || Holds(es, l, ROOTDEV, s))
  }

  /** bread of sector s panics: it is not cached, and every buffer is held or dirty. */
  ghost predicate Full(es: map<Buf, BufState>, s: Word) {
    NotCached(es, ROOTDEV, s) && forall b :: b in es ==> Pinned(es[b])
  }

  lemma NotTheLogBlock(v: Storage, cap: nat, b: Buf, l: Buf, s: Word)
    requires StorageOk(v, cap) && b in v.es && v.es[b].busy && l in v.es && !v.es[l].busy && v.start < s
    requires Holds(v.es, l, ROOTDEV, s) || (!v.es[l].dirty && NotCached(v.es, ROOTDEV, s))
    ensures LogBlock(v, b, l, s) && b != l && !Full(v.es, s)
  {
    assert v.es[l].dirty ==> l in v.pins;
  }

  lemma StorageFacts(v: Storage, cap: nat)
    requires StorageOk(v, cap)
    ensures DirtyIsValid(v.es) && Geometry(v.d, v.start, cap)
    ensures |v.lh| <= cap && 0 < v.start && v.start + cap < |v.d| < 0x1_0000_0000
    ensures forall x :: x in v.es && v.es[x].busy ==> v.es[x].sector < v.start
  {
  }

  /** Only the log block has been written. */
  ghost function AfterLogBlock(v: Storage, b: Buf, l: Buf): Storage
    requires b in v.es && v.start + |v.lh| + 1 < |v.d| < 0x1_0000_0000
  {
    var s := v.start + 1 + IndexOf(v.lh, v.es[b].sector);
    v.(es := v.es[l := BufState(false, true, false, ROOTDEV, s, v.es[b].data)], d := v.d[s := v.es[b].data])
  }

  /** Agreement after log_write of b, with l the buffer of the log block. */
  ghost function AfterLogWrite(v: Storage, b: Buf, l: Buf): Storage
    requires b in v.es && v.start + |v.lh| + 1 < |v.d| < 0x1_0000_0000
  {
    var i := IndexOf(v.lh, v.es[b].sector);
    Storage(
      v.es[l := BufState(false, true, false, ROOTDEV, v.start + 1 + i, v.es[b].data)][b := v.es[b].(dirty := true)],
      Append(v.d, v.start, v.lh, Write(v.es[b].sector, v.es[b].data)),
      v.start,
      Entered(v.lh, v.es[b].sector),
      if i < |v.lh| then v.pins else v.pins + [b])
  }

  ghost predicate LogWritable(v: Storage, b: Buf, l: Buf) {
    && Agree(v) && Unique(v.es) && v.start + |v.lh| + 1 < |v.d| < 0x1_0000_0000
    && Distinct(v.lh) && (forall i :: 0 <= i < |v.lh| ==> v.lh[i] < v.start)
    && b in v.es && v.es[b].busy
    && LogBlock(v, b, l, v.start + 1 + IndexOf(v.lh, v.es[b].sector))
  }

  lemma LogWriteAgrees(v: Storage, b: Buf, l: Buf)
    requires LogWritable(v, b, l)
    ensures Agree(AfterLogWrite(v, b, l))
    ensures var w := AfterLogWrite(v, b, l);
            Unique(w.es) && Distinct(w.lh) && Distinct(w.pins) && l !in w.pins
  {
    var w := AfterLogWrite(v, b, l);
    var s := v.start + 1 + IndexOf(v.lh, v.es[b].sector);
    PutUnique(v.es, l, w.es[l]);
    PutUnique(v.es[l := w.es[l]], b, w.es[b]);
    LogWritePins(v, b, l);
    PinsDistinct(w.es, w.lh, w.pins);
    forall x | x in w.es && w.es[x].dev == ROOTDEV && !w.es[x].busy
      ensures w.es[x].valid && w.es[x].sector < |w.d|
      ensures w.es[x].data == Latest(w.d, w.start, w.lh, w.es[x].sector)
    {
      LogWriteSettles(v, b, l, x);
    }
  }

  lemma LogWritePins(v: Storage, b: Buf, l: Buf)
    requires LogWritable(v, b, l)
    ensures var w := AfterLogWrite(v, b, l);
            PinsOk(w.es, w.lh, w.pins) && l !in w.pins && Distinct(w.lh)
  {
    hide Settled, Devices, Quiescent, Latest, Geometry, Append, Unique;
    var w := AfterLogWrite(v, b, l);
    EnteredDistinct(v.lh, v.es[b].sector);
    hide Distinct;
    PinnedThere(v, b, l);
    forall x | x in w.es && w.es[x].dirty
      ensures x in w.pins
    {
      assert x == b || x in v.pins;
    }
  }

  lemma PinnedThere(v: Storage, b: Buf, l: Buf)
    requires LogWritable(v, b, l)
    ensures b in AfterLogWrite(v, b, l).pins
    ensures var w := AfterLogWrite(v, b, l);
            && |w.pins| == |w.lh|
            && forall i :: 0 <= i < |w.pins| ==> Holds(w.es, w.pins[i], ROOTDEV, w.lh[i]) && w.es[w.pins[i]].dirty
  {
    hide Settled, Devices, Quiescent, Latest, Geometry, Distinct, Append;
    var i := IndexOf(v.lh, v.es[b].sector);
    if i < |v.lh| {
      assert Holds(v.es, v.pins[i], ROOTDEV, v.lh[i]);
      assert v.pins[i] == b;
    }
    forall j | 0 <= j < |v.pins| ensures Holds(v.es, v.pins[j], ROOTDEV, v.lh[j]) && v.pins[j] != l {
    }
  }

  lemma EnteredDistinct(lh: seq<Word>, s: Word)
    requires Distinct(lh)
    ensures Distinct(Entered(lh, s))
  {
  }

  /** Distinct sectors are pinned in distinct buffers. */
  lemma PinsDistinct(es: map<Buf, BufState>, lh: seq<Word>, pins: seq<Buf>)
    requires PinsOk(es, lh, pins) && Distinct(lh)
    ensures Distinct(pins)
  {
    forall j, k | 0 <= j < k < |pins|
      ensures pins[j] != pins[k]
    {
      assert Holds(es, pins[j], ROOTDEV, lh[j]) && Holds(es, pins[k], ROOTDEV, lh[k]);
    }
  }

  lemma LogWriteSettles(v: Storage, b: Buf, l: Buf, x: Buf)
    requires LogWritable(v, b, l)
    requires x in v.es && x != b && (x == l || (v.es[x].dev == ROOTDEV && !v.es[x].busy))
    ensures var w := AfterLogWrite(v, b, l);
            && w.start + |w.lh| < |w.d|
            && w.es[x].valid && w.es[x].sector < |w.d|
            && w.es[x].data == Latest(w.d, w.start, w.lh, w.es[x].sector)
  {
    var s := v.start + 1 + IndexOf(v.lh, v.es[b].sector);
    if x != l {
      var t := v.es[x].sector;
      assert t != s by { assert !Holds(v.es, x, ROOTDEV, s); }
      if t < v.start {
        assert t != v.es[b].sector;
        ViewAfterWrite(v.d, v.start, v.lh, Write(v.es[b].sector, v.es[b].data), t);
      }
    }
  }

  lemma LogWriteKeeps(v: Storage, b: Buf, l: Buf, cap: nat)
    requires StorageOk(v, cap) && Unique(v.es) && |v.lh| < cap
    requires b in v.es && v.es[b].busy && |v.es.Keys| <= NBUF
    requires v.start + 1 + cap < 0x1_0000_0000
    requires LogBlock(v, b, l, v.start + 1 + IndexOf(v.lh, v.es[b].sector))
    ensures StorageOk(AfterLogWrite(v, b, l), cap)
  {
    hide Devices, Settled, Unique, Latest, Distinct;
    var w := AfterLogWrite(v, b, l);
    LogWriteAgrees(v, b, l);
    RoomLeft(v.es.Keys, w.pins, l);
  }

  lemma KeysOf(ring: seq<Buf>, head: Buf, bufs: seq<Buf>, es: map<Buf, BufState>)
    requires RingOf(ring, head, bufs) && forall b :: b in es ==> b in bufs
    ensures |es.Keys| <= NBUF
  {
    SizeAtMost(bufs);
    SubsetSize(es.Keys, set x | x in bufs);
  }

  lemma RoomLeft<T>(bufs: set<T>, pins: seq<T>, l: T)
    requires Distinct(pins) && l in bufs && l !in pins
    requires forall i :: 0 <= i < |pins| ==> pins[i] in bufs
    ensures |pins| < |bufs|
  {
    SizeOfDistinct(pins);
    SubsetSize((set x | x in pins) + {l}, bufs);
  }

  /** Everything held, except b, is left alone, and nothing else becomes held. */
  ghost predicate HeldKept(es: map<Buf, BufState>, es': map<Buf, BufState>, b: Buf) {
    es.Keys == es'.Keys && forall x :: x in es && x != b && (es[x].busy || es'[x].busy) ==> es'[x] == es[x]
  }

  lemma LogWriteHeld(v: Storage, b: Buf, l: Buf)
    requires b in v.es && v.start + |v.lh| + 1 < |v.d| < 0x1_0000_0000
    requires LogBlock(v, b, l, v.start + 1 + IndexOf(v.lh, v.es[b].sector))
    ensures HeldKept(v.es, AfterLogWrite(v, b, l).es, b)
  {
  }

  lemma LogWritten(ring: seq<Buf>, head: Buf, bufs: seq<Buf>, v: Storage, b: Buf, l: Buf, cap: nat)
    requires RingOf(ring, head, bufs) && forall x :: x in v.es ==> x in bufs
    requires StorageOk(v, cap) && Unique(v.es) && |v.lh| < cap
    requires b in v.es && v.es[b].busy && v.start + 1 + cap < 0x1_0000_0000
    requires LogBlock(v, b, l, v.start + 1 + IndexOf(v.lh, v.es[b].sector))
    ensures v.start + |v.lh| + 1 < |v.d|
    ensures var w := AfterLogWrite(v, b, l);
            && StorageOk(w, cap) && HeldKept(v.es, w.es, b)
            && w.lh == Entered(v.lh, v.es[b].sector)
            && w.d == Append(v.d, v.start, v.lh, Write(v.es[b].sector, v.es[b].data))
  {
    hide RingOf, StorageOk, Unique, LogBlock, HeldKept, Entered, Append, IndexOf;
    StorageFacts(v, cap);
    KeysOf(ring, head, bufs, v.es);
    LogWriteKeeps(v, b, l, cap);
    LogWriteHeld(v, b, l);
  }

  /** What a holder does to its own buffer, short of giving up changed data, keeps agreement. */
  lemma HolderKeeps(v: Storage, cap: nat, b: Buf, t: BufState)
    requires StorageOk(v, cap) && Unique(v.es) && b in v.es && v.es[b].busy
    requires t == v.es[b].(data := t.data, busy := t.busy)
    requires t.busy || (t.sector < |v.d| && t.data == Latest(v.d, v.start, v.lh, t.sector))
    ensures StorageOk(v.(es := v.es[b := t]), cap)
    ensures Unique(v.es[b := t])
  {
    hide Unique, PinsOk, Geometry, Quiescent, Distinct, Latest;
    PutUnique(v.es, b, t);
    HolderPins(v.es, v.lh, v.pins, b, t);
  }

  lemma HolderPins(es: map<Buf, BufState>, lh: seq<Word>, pins: seq<Buf>, b: Buf, t: BufState)
    requires PinsOk(es, lh, pins) && b in es && t.dirty == es[b].dirty
    requires es[b].dirty ==> t.dev == es[b].dev && t.sector == es[b].sector
    ensures PinsOk(es[b := t], lh, pins)
  {
    forall i | 0 <= i < |pins| ensures Holds(es[b := t], pins[i], ROOTDEV, lh[i]) && es[b := t][pins[i]].dirty {
      assert Holds(es, pins[i], ROOTDEV, lh[i]);
    }
  }

  // ----- room in the cache -----

  /** The sectors whose buffers are held. */
  ghost function HeldSectors(es: map<Buf, BufState>): set<Word> {
    set b | b in es && es[b].busy :: es[b].sector
  }

  /** bread of sector s panics exactly when the held and the logged sectors are as many as there are
      buffers, and s is none of them. */
  lemma RoomFor(ring: seq<Buf>, head: Buf, bufs: seq<Buf>, v: Storage, cap: nat, s: Word)
    requires StorageOk(v, cap) && Unique(v.es) && RingOf(ring, head, bufs)
    requires forall b :: b in bufs <==> b in v.es
    ensures Full(v.es, s) <==>
              |HeldSectors(v.es) + Elements(v.lh)| == 10 && s !in HeldSectors(v.es) + Elements(v.lh)
  {
    hide StorageOk, Unique;
    assert |bufs| == NBUF && Distinct(bufs);
    hide RingOf;
    var used := set b | b in v.es && Pinned(v.es[b]);
    UsedSize(v, cap, used);
    SizeOfDistinct(bufs);
    assert v.es.Keys == Elements(bufs);
    SubsetSize(used, v.es.Keys);
    if forall b :: b in v.es ==> Pinned(v.es[b]) {
      assert used == v.es.Keys;
      AllPinned(v, cap, s);
    }
  }

  lemma AllPinned(v: Storage, cap: nat, s: Word)
    requires StorageOk(v, cap) && forall b :: b in v.es ==> Pinned(v.es[b])
    ensures NotCached(v.es, ROOTDEV, s) <==> s !in HeldSectors(v.es) + Elements(v.lh)
  {
    forall b | b in v.es ensures v.es[b].sector in HeldSectors(v.es) + Elements(v.lh) {
      PinnedSector(v, cap, b);
    }
    if s in v.lh {
      var i :| 0 <= i < |v.lh| && v.lh[i] == s;
      assert Holds(v.es, v.pins[i], ROOTDEV, s);
    } else if s in HeldSectors(v.es) {
      var b :| b in v.es && v.es[b].busy && v.es[b].sector == s;
      assert Holds(v.es, b, ROOTDEV, s);
    }
  }

  lemma PinnedSector(v: Storage, cap: nat, b: Buf)
    requires StorageOk(v, cap) && b in v.es && Pinned(v.es[b])
    ensures v.es[b].dev == ROOTDEV && v.es[b].sector in HeldSectors(v.es) + Elements(v.lh)
  {
    if v.es[b].dirty {
      var i :| 0 <= i < |v.pins| && v.pins[i] == b;
      assert Holds(v.es, v.pins[i], ROOTDEV, v.lh[i]);
    }
  }

  lemma SectorPinned(v: Storage, cap: nat, s: Word) returns (b: Buf)
    requires StorageOk(v, cap) && s in HeldSectors(v.es) + Elements(v.lh)
    ensures b in v.es && Pinned(v.es[b]) && v.es[b].sector == s
  {
    if s in v.lh {
      var i :| 0 <= i < |v.lh| && v.lh[i] == s;
      assert Holds(v.es, v.pins[i], ROOTDEV, s);
      b := v.pins[i];
    } else {
      b :| b in v.es && v.es[b].busy && v.es[b].sector == s;
    }
  }

  /** The held and the logged sectors are as many as the buffers that are held or dirty. */
  lemma UsedSize(v: Storage, cap: nat, used: set<Buf>)
    requires StorageOk(v, cap) && Unique(v.es) && used == set b | b in v.es && Pinned(v.es[b])
    ensures |used| == |HeldSectors(v.es) + Elements(v.lh)|
  {
    hide StorageOk, HeldSectors, Elements, Pinned;
    var sectors := HeldSectors(v.es) + Elements(v.lh);
    var at := map b | b in used :: v.es[b].sector;
    forall b | b in used ensures v.es[b].dev == ROOTDEV && at[b] in sectors {
      PinnedSector(v, cap, b);
    }
    forall s | s in sectors ensures exists b :: b in used && at[b] == s {
      var b := SectorPinned(v, cap, s);
      assert b in used && at[b] == s;
    }
    forall x, y | x in used && y in used && at[x] == at[y] ensures x == y {
      assert Holds(v.es, x, ROOTDEV, at[x]) && Holds(v.es, y, ROOTDEV, at[x]);
    }
    SameSize(used, sectors, at);
  }

  /** A buffer fetched by bread carries the latest contents, and holding it keeps agreement. */
  lemma ReadAgrees(v: Storage, b: Buf, t: BufState, s: Word)
    requires Agree(v) && Unique(v.es)
    requires b in v.es && !v.es[b].busy && s < v.start
    requires if Holds(v.es, b, ROOTDEV, s) && v.es[b].valid then t == v.es[b].(busy := true)
             else !v.es[b].dirty && (Holds(v.es, b, ROOTDEV, s) || NotCached(v.es, ROOTDEV, s))
                  && t == BufState(true, true, false, ROOTDEV, s, v.d[s])
    ensures t == BufState(true, true, s in v.lh, ROOTDEV, s, Latest(v.d, v.start, v.lh, s))
    ensures Agree(v.(es := v.es[b := t]))
  {
    hide PinsOk;
    ReadLatest(v, b, t, s);
    HolderPins(v.es, v.lh, v.pins, b, t);
  }

  lemma ReadLatest(v: Storage, b: Buf, t: BufState, s: Word)
    requires Agree(v) && Unique(v.es)
    requires b in v.es && !v.es[b].busy && s < v.start
    requires if Holds(v.es, b, ROOTDEV, s) && v.es[b].valid then t == v.es[b].(busy := true)
             else !v.es[b].dirty && (Holds(v.es, b, ROOTDEV, s) || NotCached(v.es, ROOTDEV, s))
                  && t == BufState(true, true, false, ROOTDEV, s, v.d[s])
    ensures t == BufState(true, true, s in v.lh, ROOTDEV, s, Latest(v.d, v.start, v.lh, s))
    ensures t.dirty == v.es[b].dirty
    ensures v.es[b].dirty ==> t.dev == v.es[b].dev && t.sector == v.es[b].sector
  {
    if s in v.lh {
      var i :| 0 <= i < |v.lh| && v.lh[i] == s;
      assert Holds(v.es, v.pins[i], ROOTDEV, s);
    } else {
      assert v.es[b].dirty ==> b in v.pins;
      assert IndexOf(v.lh, s) == |v.lh|;
    }
  }

  // ----- several held buffers -----

  /** m names the buffer of every held sector, and it carries the latest contents. */
  ghost predicate Holding(v: Storage, m: map<Word, Buf>)
    requires v.start + |v.lh| < |v.d|
  {
    && (forall s :: s in m ==>
          && s < v.start && Holds(v.es, m[s], ROOTDEV, s) && v.es[m[s]].busy
          && v.es[m[s]].data == Latest(v.d, v.start, v.lh, s))
    && (forall b :: b in v.es && v.es[b].busy ==> v.es[b].sector in m && m[v.es[b].sector] == b)
  }

  lemma HoldingSectors(v: Storage, m: map<Word, Buf>)
    requires v.start + |v.lh| < |v.d| && Holding(v, m)
    ensures HeldSectors(v.es) == m.Keys
  {
    forall s | s in m ensures s in HeldSectors(v.es) {
      assert Holds(v.es, m[s], ROOTDEV, s);
    }
  }

  lemma HoldingNone(v: Storage, m: map<Word, Buf>)
    requires v.start + |v.lh| < |v.d|
    ensures Holding(v, map[]) <==> NoneBusy(v.es)
    ensures Holding(v, m) && m == map[] ==> NoneBusy(v.es)
  {
  }

  lemma HoldingAt(v: Storage, m: map<Word, Buf>, s: Word)
    requires v.start + |v.lh| < |v.d| && Holding(v, m) && s in m
    ensures s < v.start && m[s] in v.es && v.es[m[s]].busy && v.es[m[s]].sector == s
    ensures v.es[m[s]].data == Latest(v.d, v.start, v.lh, s)
  {
    assert Holds(v.es, m[s], ROOTDEV, s);
  }

  /** bread of a sector that is not held neither sleeps nor panics, if there is room. */
  lemma HoldingRoom(ring: seq<Buf>, head: Buf, bufs: seq<Buf>, v: Storage, cap: nat, held: set<Word>, s: Word)
    requires StorageOk(v, cap) && Unique(v.es) && RingOf(ring, head, bufs)
    requires forall b :: b in bufs <==> b in v.es
    requires HeldSectors(v.es) == held && |held + Elements(v.lh)| < NBUF
    ensures !Full(v.es, s)
    ensures s !in held ==> forall b :: Holds(v.es, b, ROOTDEV, s) ==> !v.es[b].busy
  {
    hide StorageOk, Unique, RingOf;
    RoomFor(ring, head, bufs, v, cap, s);
  }

  lemma HeldSectorsKept(es: map<Buf, BufState>, b: Buf, t: BufState)
    requires b in es && es[b].busy && t.busy && t.sector == es[b].sector
    ensures HeldSectors(es[b := t]) == HeldSectors(es)
  {
    var es' := es[b := t];
    forall s | s in HeldSectors(es) ensures s in HeldSectors(es') {
      var x :| x in es && es[x].busy && es[x].sector == s;
      assert x in es' && es'[x].busy && es'[x].sector == s;
    }
    forall s | s in HeldSectors(es') ensures s in HeldSectors(es) {
      var x :| x in es' && es'[x].busy && es'[x].sector == s;
      assert x in es && es[x].busy && es[x].sector == s;
    }
  }

  lemma HoldingTake(v: Storage, m: map<Word, Buf>, b: Buf, s: Word, t: BufState)
    requires v.start + |v.lh| < |v.d| && Holding(v, m) && s < v.start && s !in m
    requires b in v.es && !v.es[b].busy
    requires t.busy && t.dev == ROOTDEV && t.sector == s && t.data == Latest(v.d, v.start, v.lh, s)
    ensures Holding(v.(es := v.es[b := t]), m[s := b])
  {
    hide Latest;
    var w := v.(es := v.es[b := t]);
    forall r | r in m ensures m[r] != b {
      assert Holds(v.es, m[r], ROOTDEV, r) && v.es[m[r]].busy;
    }
  }

  /** After log_write of the buffer of w.sector. */
  lemma HoldingPut(v: Storage, m: map<Word, Buf>, w: Write, v': Storage)
    requires v.start + |v.lh| + 1 < |v.d| && Holding(v, m) && w.sector in m
    requires HeldKept(v.es, v'.es, m[w.sector])
    requires m[w.sector] in v.es && v'.es[m[w.sector]] == v.es[m[w.sector]].(data := w.data, dirty := true)
    requires v'.start == v.start && v'.lh == Entered(v.lh, w.sector) && v'.d == Append(v.d, v.start, v.lh, w)
    ensures Holding(v', m)
  {
    hide View, Append;
    forall s | s in m
      ensures Holds(v'.es, m[s], ROOTDEV, s) && v'.es[m[s]].busy
      ensures v'.es[m[s]].data == Latest(v'.d, v'.start, v'.lh, s)
    {
      assert Holds(v.es, m[s], ROOTDEV, s);
      ViewAfterWrite(v.d, v.start, v.lh, w, s);
    }
  }

  lemma HoldingGive(v: Storage, m: map<Word, Buf>, s: Word, t: BufState)
    requires v.start + |v.lh| < |v.d| && Holding(v, m) && s in m && !t.busy && m[s] in v.es
    ensures Holding(v.(es := v.es[m[s] := t]), m - {s})
  {
    hide Latest;
    forall r | r in m && r != s ensures m[r] != m[s] {
      assert Holds(v.es, m[r], ROOTDEV, r) && Holds(v.es, m[s], ROOTDEV, s);
    }
  }

  lemma HeldKeptTrans(es: map<Buf, BufState>, e1: map<Buf, BufState>, e2: map<Buf, BufState>, b: Buf)
    requires HeldKept(es, e1, b) && HeldKept(e1, e2, b)
    ensures HeldKept(es, e2, b)
  {
  }
}
