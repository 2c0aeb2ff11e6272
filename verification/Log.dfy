/** log.c running on the buffer cache: what is on the disk, in the cache and in the
    in-memory header agree at every step, and each operation writes exactly the images
    that RedoLog and Transactions say it does. */
module Log {
  import opened Basics
  import opened Blocks
  import opened RedoLog
  import opened Transactions
  import opened Scripts
  import opened Recency
  import opened BufferCache
  import opened CacheAgreement

  class Log {
    const cache: BCache
    const start: nat      // log.start, the sector of the header
    const size: nat       // log.size
    var busy: bool        // a transaction is open
    var n: nat            // log.lh.n
    var sector: seq<Word> // log.lh.sector, LOGSIZE entries
    ghost var pins: seq<Buf>

    /** The limit log_write enforces: LOGSIZE, or the blocks behind the header. */
    function Cap(): nat
    {
      if size == 0 then 0 else if LOGSIZE < size - 1 then LOGSIZE else size - 1
    }

    ghost function Lh(): seq<Word>
      requires n <= |sector|
      reads this
    {
      sector[..n]
    }

    ghost function View(): Storage
      requires n <= |sector|
      reads this, cache.disk, cache.bufs`st
    {
      Storage(cache.Entries(), cache.disk.now.sectors, start, Lh(), pins)
    }

    ghost predicate Valid()
      reads this, cache, cache.disk, cache.bufs`st, cache.ring`prev, cache.ring`next
    {
      && cache.Valid()
      && |sector| == LOGSIZE && n <= LOGSIZE
      && (!busy ==> n == 0)
      && StorageOk(View(), Cap())
    }

    /** The fields as initlog sets them, before recovery. */
    constructor (cache: BCache, start: nat, size: nat)
      ensures this.cache == cache && this.start == start && this.size == size
      ensures n == 0 && !busy && |sector| == LOGSIZE && pins == []
    {
      this.cache, this.start, this.size := cache, start, size;
      busy, n, sector := false, 0, seq(LOGSIZE, _ => 0);
      pins := [];
    }

    /** bread, as the file system calls it. */
    method Bread(s: Word) returns (r: Got)
      requires Valid() && s < start
      modifies cache.bufs, cache.disk
      ensures !r.Panics? ==> Valid()
      ensures cache.disk.now.sectors == old(cache.disk.now.sectors)
      ensures cache.disk.past.images == old(cache.disk.past.images)
      ensures r.Got? ==>
                && r.buf in cache.bufs && !old(r.buf.st.busy)
                && r.buf.st == BufState(true, true, s in Lh(), ROOTDEV, s,
                                             Latest(cache.disk.now.sectors, start, Lh(), s))
                && cache.Entries() == old(cache.Entries())[r.buf := r.buf.st]
      ensures r.Sleeps? ==>
                && cache.Entries() == old(cache.Entries())
                && Holds(cache.Entries(), r.on, ROOTDEV, s) && cache.Entries()[r.on].busy
      ensures r.Panics? ==>
                && NotCached(old(cache.Entries()), ROOTDEV, s)
                && forall b :: b in cache.bufs ==> Pinned(old(cache.Entries())[b])
    {
      hide Unique, RingOf, BCache.Valid, Distinct;
      cache.ValidIs();
      r := cache.Bread(ROOTDEV, s);
      if r.Got? {
        ReadAgrees(old(View()), r.buf, r.buf.st, s);
        assert View() == old(View()).(es := cache.Entries());
      }
    }

    /** Write b's contents to the log and pin b in the cache; false is a panic. */
    method LogWrite(b: Buf) returns (ok: bool)
      requires Valid() && b in cache.bufs && b.st.busy
      modifies this, cache, cache.head, cache.bufs, cache.disk
      ensures ok ==> Valid()
      ensures ok ==>
                && busy && old(n) < Cap()
                && Lh() == Entered(old(Lh()), b.st.sector)
                && cache.disk.now.sectors
                   == Append(old(cache.disk.now.sectors), start, old(Lh()), Write(b.st.sector, b.st.data))
                && cache.disk.past.images == old(cache.disk.past.images) + [cache.disk.now.sectors]
                && b.st == old(b.st).(dirty := true)
                && HeldKept(old(cache.Entries()), cache.Entries(), b)
      ensures !ok ==> cache.disk.past.images == old(cache.disk.past.images)
      ensures ok <==> old(busy && n < 10 && n + 1 < size && !NoRoom(b.st.sector))
    {
      hide StorageOk, Agree, BCache.Valid, Distinct, IndexOf, NoRoom, HeldKept;
      StorageFacts(View(), Cap());
      if n >= LOGSIZE || n >= size - 1 {
        return false;
      }
      if !busy {
        return false;
      }
      ok := PutInLog(b);
    }

    /** The rest of log_write, when there is room in the header. */
    method PutInLog(b: Buf) returns (ok: bool)
      requires Valid() && b in cache.bufs && b.st.busy && busy && n < Cap() && start + 1 + n < 0x1_0000_0000
      modifies this`n, this`sector, this`pins, cache, cache.head, cache.bufs, cache.disk
      ensures ok ==> Valid()
      ensures ok ==>
                && Lh() == Entered(old(Lh()), b.st.sector)
                && cache.disk.now.sectors
                   == Append(old(cache.disk.now.sectors), start, old(Lh()), Write(b.st.sector, b.st.data))
                && cache.disk.past.images == old(cache.disk.past.images) + [cache.disk.now.sectors]
                && b.st == old(b.st).(dirty := true)
                && HeldKept(old(cache.Entries()), cache.Entries(), b)
      ensures !ok ==> cache.disk.past.images == old(cache.disk.past.images)
      ensures ok <==> !old(NoRoom(b.st.sector))
    {
      hide StorageOk, Agree, LogBlock, Unique, RingOf, BCache.Valid, Distinct, IndexOf, Full, HeldKept, AfterLogBlock,
        AfterLogWrite;
      cache.ValidIs();
      ghost var v := View();
      StorageFacts(v, Cap());
      assert b in v.es && v.es[b] == b.st;
      var i := EnterSector(b.st.sector);
      var l := WriteLogBlock(b, i);
      if l == null {
        return false;
      }
      cache.ValidIs();
      LogWritten(cache.ring, cache.head, cache.bufs, v, b, l, Cap());
      Finish(b, i, v, l);
      ok := true;
    }

    /** The entry for sector s is filled in. */
    method EnterSector(s: Word) returns (i: nat)
      requires n < |sector|
      modifies this`sector
      ensures |sector| == old(|sector|) && Lh() == old(Lh())
      ensures i == IndexOf(Lh(), s) && i <= n && sector[i] == s
    {
      i := FindEntry(s);
      sector := sector[i := s];
      assert Lh() == old(Lh());
    }

    /** The absorption loop of log_write. */
    method FindEntry(s: Word) returns (i: nat)
      requires n <= |sector|
      ensures i == IndexOf(Lh(), s)
    {
      i := 0;
      while i < n && sector[i] != s
        invariant 0 <= i <= n
        invariant forall j :: 0 <= j < i ==> sector[j] != s
      {
        i := i + 1;
      }
      IndexIs(Lh(), s, i);
    }

    /** The last two statements of log_write. */
    method Finish(b: Buf, i: nat, ghost v: Storage, ghost l: Buf)
      requires i <= n < |sector| && sector[i] == b.st.sector && b in cache.bufs && cache.Valid()
      requires b in v.es && v.es[b] == b.st && l != b && i == IndexOf(v.lh, b.st.sector)
      requires v.start + |v.lh| + 1 < |v.d| < 0x1_0000_0000
      requires View() == AfterLogBlock(v, b, l)
      modifies this`n, this`pins, b`st
      ensures cache.Valid()
      ensures b.st == old(b.st).(dirty := true)
      ensures n <= |sector| && View() == AfterLogWrite(v, b, l)
      ensures |sector| == LOGSIZE ==> n <= LOGSIZE
    {
      hide IndexOf, Unique, RingOf, Linked, InOrder;
      if i == n {
        n := n + 1;
        pins := pins + [b];
      }
      cache.Put(b, b.st.(dirty := true));
      PutUnique(old(cache.Entries()), b, b.st);
    }

    /** Copy b to the i-th block behind the header. */
    method WriteLogBlock(b: Buf, i: nat) returns (l: Buf?)
      requires cache.Valid() && b in cache.bufs && b.st.busy
      requires n <= |sector| && StorageOk(View(), Cap())
      requires i == IndexOf(Lh(), b.st.sector) && start + n + 1 < |cache.disk.now.sectors|
      modifies cache, cache.head, cache.bufs, cache.disk
      ensures l != null ==>
                && cache.Valid() && l in cache.bufs && LogBlock(old(View()), b, l, start + 1 + i)
                && l != b && b.st == old(b.st)
                && View() == AfterLogBlock(old(View()), b, l)
                && cache.disk.past.images == old(cache.disk.past.images) + [cache.disk.now.sectors]
      ensures l == null ==>
                && cache.disk.past.images == old(cache.disk.past.images)
                && Full(old(cache.Entries()), start + 1 + i)
      ensures l != null ==> !Full(old(cache.Entries()), start + 1 + i)
    {
      hide StorageOk, Agree, LogBlock, BCache.Valid, Distinct, IndexOf, Full;
      StorageFacts(View(), Cap());
      l := ReadLogBlock(b, i);
      if l != null {
        cache.StoreAndRelease(l, b.st.data);
      }
    }

    /** bread of the i-th block behind the header. */
    method ReadLogBlock(b: Buf, i: nat) returns (l: Buf?)
      requires cache.Valid() && b in cache.bufs && b.st.busy
      requires n <= |sector| && StorageOk(View(), Cap())
      requires i == IndexOf(Lh(), b.st.sector) && start + n + 1 < |cache.disk.now.sectors|
      modifies cache.bufs, cache.disk
      ensures cache.disk.now.sectors == old(cache.disk.now.sectors)
      ensures cache.disk.past.images == old(cache.disk.past.images)
      ensures l != null ==>
                && cache.Valid() && l in cache.bufs && LogBlock(old(View()), b, l, start + 1 + i)
                && l != b && b.st == old(b.st) && cache.Entries() == old(cache.Entries())[l := l.st]
                && l.st.busy && l.st.dev == ROOTDEV && l.st.sector == start + 1 + i
      ensures l == null <==> Full(old(cache.Entries()), start + 1 + i)
    {
      hide StorageOk, Agree, LogBlock, BCache.Valid, Distinct, IndexOf;
      StorageFacts(View(), Cap());
      ghost var v := View();
      assert v.es == cache.Entries() && b in v.es && v.es[b] == b.st;
      var r := cache.Bread(ROOTDEV, start + i + 1);
      if !r.Got? {
        return null;
      }
      assert r.buf in v.es;
      NotTheLogBlock(v, Cap(), b, r.buf, start + 1 + i);
      l := r.buf;
    }

    /** The block that log_write needs for sector s is not cached, and every buffer is pinned. */
    ghost predicate NoRoom(s: Word)
      requires n <= |sector| && start + 1 + n < 0x1_0000_0000
      reads this, cache.bufs`st
    {
      Full(cache.Entries(), start + 1 + IndexOf(Lh(), s))
    }

    /** begin_trans; false means the caller sleeps. */
    method BeginTrans() returns (ok: bool)
      requires Valid()
      modifies this`busy
      ensures Valid()
      ensures ok == !old(busy) && busy
    {
      hide StorageOk, BCache.Valid, Distinct;
      if busy {
        return false;
      }
      busy := true;
      ok := true;
    }

    /** The holder of a buffer changes its data. */
    method Modify(b: Buf, data: Block)
      requires Valid() && b in cache.bufs && b.st.busy
      modifies b`st
      ensures Valid()
      ensures b.st == old(b.st).(data := data)
      ensures cache.Entries() == old(cache.Entries())[b := b.st]
    {
      hide StorageOk, RingOf, Linked, InOrder, Distinct, IndexOf;
      ghost var v := View();
      cache.Put(b, b.st.(data := data));
      HolderKeeps(v, Cap(), b, b.st);
      assert View() == v.(es := v.es[b := b.st]);
    }

    /** brelse, after the changes to the buffer (if any) were logged. */
    method Release(b: Buf)
      requires Valid() && b in cache.bufs && b.st.busy && b.st.sector < |cache.disk.now.sectors|
      requires b.st.data == Latest(cache.disk.now.sectors, start, Lh(), b.st.sector)
      modifies cache, cache.head, cache.bufs
      ensures Valid()
      ensures b.st == old(b.st).(busy := false)
      ensures cache.Entries() == old(cache.Entries())[b := b.st]
    {
      hide StorageOk, RingOf, BCache.Valid, Distinct, IndexOf, Unique;
      cache.ValidIs();
      ghost var v := View();
      HolderKeeps(v, Cap(), b, b.st.(busy := false));
      var ok := cache.Brelse(b);
      assert View() == v.(es := v.es[b := b.st]);
    }

    // ----- transactions -----

    /** m names the held buffers, and they carry the latest contents. */
    ghost predicate Keeps(m: map<Word, Buf>)
      requires Valid()
      reads this, cache, cache.disk, cache.bufs`st, cache.ring`prev, cache.ring`next
    {
      Holding(View(), m)
    }

    /** A transaction as a caller writes it, any number of buffers held at a time, between begin_trans
        and commit_trans. As long as there is room it never panics and never sleeps, its breads return
        what the script says, and the disk goes through exactly the images of TransactionSteps. */
    method Transaction(ops: seq<Op>, ghost h: seq<Block>) returns (got: seq<Block>)
      requires Valid() && !busy && NoneBusy(cache.Entries())
      requires |h| == |cache.disk.now.sectors| && h[..start] == cache.disk.now.sectors[..start]
      requires Script(h, ops) && Held(ops) == {} && Home(ops, start) && Roomy(ops, Cap(), NBUF)
      modifies this, cache, cache.head, cache.bufs, cache.disk
      ensures Valid() && !busy && NoneBusy(cache.Entries())
      ensures got == Takes(ops)
      ensures Geometry(old(cache.disk.now.sectors), start, Cap()) && Admissible(Puts(ops), start, Cap())
      ensures var t := TransactionSteps(old(cache.disk.now.sectors), start, Cap(), Puts(ops));
              && cache.disk.past.images == old(cache.disk.past.images) + t
              && cache.disk.now.sectors == ImageAt(old(cache.disk.now.sectors), t, |t|)
    {
      hide StorageOk, RingOf, Linked, InOrder, Distinct, IndexOf, Unique, NoneBusy, TransactionSteps, LogSteps,
        LoggedTake, Header, CommitSteps, Admissible, Geometry, Script, Roomy, Home, Puts, Held;
      ghost var d := cache.disk.now.sectors;
      StorageFacts(View(), Cap());
      RoomyAdmissible(h, ops, start, Cap(), NBUF);
      var began := BeginTrans();
      got := Perform(ops, Run(ops, h, d, cache.disk.past.images));
      CommitTrans();
      TransactionStepsAre(d, start, Cap(), Puts(ops));
    }

    /** A transaction whose caller stops after some operations, with buffers in hand or not: the disk goes
        through the images of its log_writes. */
    method Unfinished(ops: seq<Op>, ghost h: seq<Block>) returns (got: seq<Block>)
      requires Valid() && !busy && NoneBusy(cache.Entries())
      requires |h| == |cache.disk.now.sectors| && h[..start] == cache.disk.now.sectors[..start]
      requires Script(h, ops) && Home(ops, start) && Roomy(ops, Cap(), NBUF)
      modifies this, cache, cache.head, cache.bufs, cache.disk
      ensures Valid() && busy && got == Takes(ops)
      ensures Geometry(old(cache.disk.now.sectors), start, Cap()) && Admissible(Puts(ops), start, Cap())
      ensures cache.disk.past.images
              == old(cache.disk.past.images) + LogSteps(old(cache.disk.now.sectors), start, Cap(), Puts(ops))
    {
      hide StorageOk, BCache.Valid, Distinct, IndexOf, Unique, NoneBusy, LogSteps, LoggedTake, Header, Admissible,
        Geometry, Script, Roomy, Home, Puts, Held;
      StorageFacts(View(), Cap());
      RoomyAdmissible(h, ops, start, Cap(), NBUF);
      ghost var run := Run(ops, h, cache.disk.now.sectors, cache.disk.past.images);
      var began := BeginTrans();
      got := Perform(ops, run);
    }

    /** The operations of a transaction, one after the other. */
    method Perform(ops: seq<Op>, ghost run: Run) returns (got: seq<Block>)
      requires Valid() && busy && n == 0 && NoneBusy(cache.Entries())
      requires run.ops == ops && run.d == cache.disk.now.sectors && run.past == cache.disk.past.images
      requires RunOk(run, start, Cap())
      modifies this, cache, cache.head, cache.bufs, cache.disk
      ensures Valid() && busy && (Held(ops) == {} ==> NoneBusy(cache.Entries()))
      ensures got == Takes(ops)
      ensures Lh() == Header(Puts(ops))
      ensures cache.disk.now.sectors == LoggedTake(run.d, start, Cap(), Puts(ops), |Puts(ops)|)
      ensures cache.disk.past.images == run.past + LogSteps(run.d, start, Cap(), Puts(ops))
    {
      hide StorageOk, BCache.Valid, Distinct, IndexOf, Unique, NoneBusy, LogSteps, LoggedTake, Header, Admissible,
        Geometry, Script, Roomy, Home, Puts, Takes, Held, Holding, RunOk, Reached, Ready, Next;
      StorageFacts(View(), Cap());
      HoldingNone(View(), map[]);
      var m: map<Word, Buf> := map[];
      var k := 0;
      got := [];
      ReachedStart(run, start, Cap());
      assert m.Keys == {} && Lh() == [];
      while k < |ops|
        invariant 0 <= k <= |ops|
        invariant Valid() && busy && Keeps(m) && Reached(run, start, Cap(), k, Now(m.Keys, got))
      {
        ReachedNext(run, start, Cap(), k, Now(m.Keys, got));
        m, got := Do(ops[k], m, got);
        k := k + 1;
      }
      ReachedEnd(run, start, Cap(), Now(m.Keys, got));
      StorageFacts(View(), Cap());
      HoldingNone(View(), m);
    }

    /** One operation. */
    method Do(op: Op, m: map<Word, Buf>, got: seq<Block>) returns (m': map<Word, Buf>, got': seq<Block>)
      requires Valid() && busy && Keeps(m) && Ready(Now(m.Keys, got), start, Cap(), op)
      modifies this, cache, cache.head, cache.bufs, cache.disk
      ensures Valid() && busy && Keeps(m')
      ensures Now(m'.Keys, got') == Next(old(Now(m.Keys, got)), start, Cap(), op)
    {
      hide StorageOk, BCache.Valid, Distinct, IndexOf, Unique, Holding, Latest, Append, Entered, NoneBusy;
      match op {
        case Take(s, data) =>
          var b := Fetch(s, m);
          m', got' := m[s := b], got + [b.st.data];
        case Put(w) =>
          Change(m[w.sector], w, m);
          m', got' := m, got;
        case Give(s) =>
          GiveUp(m[s], s, m);
          m', got' := m - {s}, got;
      }
    }

    ghost function Now(held: set<Word>, got: seq<Block>): State
      requires n <= |sector|
      reads this, cache.disk
    {
      State(held, got, Lh(), cache.disk.now.sectors, cache.disk.past.images)
    }

    /** bread, when there is room. */
    method Fetch(s: Word, ghost m: map<Word, Buf>) returns (b: Buf)
      requires Valid() && Keeps(m) && s < start && s !in m && |m.Keys + Elements(Lh())| < NBUF
      modifies cache.bufs, cache.disk
      ensures Valid() && Lh() == old(Lh())
      ensures cache.disk.now.sectors == old(cache.disk.now.sectors)
      ensures cache.disk.past.images == old(cache.disk.past.images)
      ensures Keeps(m[s := b])
      ensures start + |Lh()| < |cache.disk.now.sectors| && b.st.data == Latest(cache.disk.now.sectors, start, Lh(), s)
    {
      hide StorageOk, RingOf, BCache.Valid, Distinct, IndexOf, Unique, Latest, Holding;
      cache.ValidIs();
      ghost var v := View();
      StorageFacts(v, Cap());
      HoldingSectors(v, m);
      HoldingRoom(cache.ring, cache.head, cache.bufs, v, Cap(), m.Keys, s);
      var r := Bread(s);
      b := r.buf;
      HoldingTake(v, m, b, s, b.st);
      assert View() == v.(es := v.es[b := b.st]);
    }

    /** A change of a held buffer, and log_write. */
    method Change(b: Buf, w: Write, ghost m: map<Word, Buf>)
      requires Valid() && busy && Keeps(m) && w.sector in m && m[w.sector] == b
      requires n < Cap() && |m.Keys + Elements(Lh())| < NBUF
      modifies this, cache, cache.head, cache.bufs, cache.disk
      ensures Valid() && busy && Keeps(m)
      ensures Lh() == Entered(old(Lh()), w.sector)
      ensures start + 1 + |old(Lh())| < |old(cache.disk.now.sectors)|
      ensures cache.disk.now.sectors == Append(old(cache.disk.now.sectors), start, old(Lh()), w)
      ensures cache.disk.past.images == old(cache.disk.past.images) + [cache.disk.now.sectors]
    {
      hide StorageOk, BCache.Valid, Distinct, IndexOf, Unique, Latest, HeldKept, Holding, NoRoom;
      ghost var v := View();
      StorageFacts(v, Cap());
      HoldingAt(v, m, w.sector);
      Refill(b, w.data, m);
      ghost var e1 := cache.Entries();
      var ok := LogWrite(b);
      HeldKeptTrans(v.es, e1, cache.Entries(), b);
      HoldingPut(v, m, w, View());
    }

    /** The change alone; there is room for log_write after it. */
    method Refill(b: Buf, data: Block, ghost m: map<Word, Buf>)
      requires Valid() && Keeps(m) && b in cache.bufs && b.st.busy && |m.Keys + Elements(Lh())| < NBUF
      requires start + 1 + n < 0x1_0000_0000
      modifies b`st
      ensures Valid() && b.st == old(b.st).(data := data)
      ensures cache.Entries() == old(cache.Entries())[b := b.st]
      ensures !NoRoom(b.st.sector)
    {
      hide StorageOk, RingOf, BCache.Valid, Distinct, IndexOf, Unique, Latest, Holding, Full, HeldSectors, Elements,
        Agree;
      ghost var v := View();
      StorageFacts(v, Cap());
      HoldingSectors(v, m);
      Modify(b, data);
      HeldSectorsKept(v.es, b, b.st);
      cache.ValidIs();
      HoldingRoom(cache.ring, cache.head, cache.bufs, View(), Cap(), m.Keys, start + 1 + IndexOf(Lh(), b.st.sector));
    }

    /** brelse of the buffer of sector s. */
    method GiveUp(b: Buf, s: Word, ghost m: map<Word, Buf>)
      requires Valid() && Keeps(m) && s in m && m[s] == b
      modifies cache, cache.head, cache.bufs
      ensures Valid() && Lh() == old(Lh())
      ensures cache.disk.now.sectors == old(cache.disk.now.sectors)
      ensures cache.disk.past.images == old(cache.disk.past.images)
      ensures Keeps(m - {s})
    {
      hide StorageOk, BCache.Valid, Distinct, IndexOf, Unique, Latest, Holding;
      ghost var v := View();
      StorageFacts(v, Cap());
      HoldingAt(v, m, s);
      Release(b);
      HoldingGive(v, m, s, b.st);
      assert View() == v.(es := v.es[b := b.st]);
    }

    // ----- commit_trans -----

    /** write_head: the in-memory header goes to sector start. */
    method WriteHead(ghost k: nat, ghost secs: seq<Word>, ghost ps: seq<Buf>)
      requires cache.Valid() && n <= LOGSIZE <= |sector| && start < |cache.disk.now.sectors| < 0x1_0000_0000
      requires Installing(cache.Entries(), cache.disk.now.sectors, start, secs, k, ps)
      modifies cache, cache.head, cache.bufs, cache.disk
      ensures cache.Valid()
      ensures Installing(cache.Entries(), cache.disk.now.sectors, start, secs, k, ps)
      ensures cache.disk.now.sectors == CommitHeader(old(cache.disk.now.sectors), start, Lh())
      ensures cache.disk.past.images == old(cache.disk.past.images) + [cache.disk.now.sectors]
    {
      hide Installing, Unique, RingOf, BCache.Valid, Distinct, PutSectors;
      cache.ValidIs();
      ghost var es, d := cache.Entries(), cache.disk.now.sectors;
      InstallingFacts(es, d, start, secs, k, ps);
      HasRoom(cache.ring, cache.head, cache.bufs, es, d, start, secs, k, ps);
      var r := cache.Bread(ROOTDEV, start);
      var hb := r.buf;
      CleanRead(es, d, start, secs, k, ps, hb, start);
      var block := PutHeader(hb.st.data);
      cache.StoreAndRelease(hb, block);
      CleanWrite(es, d, start, secs, k, ps, hb, start, block);
      assert cache.Entries() == es[hb := BufState(false, true, false, ROOTDEV, start, block)];
    }

    /** One round of install_trans: log block k+1 is copied to its home sector. */
    method InstallOne(k: nat, ghost ps: seq<Buf>)
      requires cache.Valid() && n <= |sector| && k < n
      requires Installing(cache.Entries(), cache.disk.now.sectors, start, Lh(), k, ps) && Distinct(ps)
      requires |cache.disk.now.sectors| < 0x1_0000_0000
      modifies cache, cache.head, cache.bufs, cache.disk
      ensures cache.Valid()
      ensures Installing(cache.Entries(), cache.disk.now.sectors, start, Lh(), k + 1, ps)
      ensures start + 1 + k < |old(cache.disk.now.sectors)| && sector[k] < |old(cache.disk.now.sectors)|
      ensures cache.disk.now.sectors
              == old(cache.disk.now.sectors)[sector[k] := old(cache.disk.now.sectors)[start + 1 + k]]
      ensures cache.disk.past.images == old(cache.disk.past.images) + [cache.disk.now.sectors]
    {
      hide Installing, Unique, RingOf, BCache.Valid, Distinct, AfterInstall;
      cache.ValidIs();
      ghost var es, d := cache.Entries(), cache.disk.now.sectors;
      InstallingFacts(es, d, start, Lh(), k, ps);
      var lbuf, dbuf := ReadPair(k, ps);
      InstallStep(es, d, start, Lh(), k, ps, lbuf, dbuf);
      CopyHome(lbuf, dbuf, es, Lh(), k);
    }

    /** The two breads of a round. */
    method ReadPair(k: nat, ghost ps: seq<Buf>) returns (lbuf: Buf, dbuf: Buf)
      requires cache.Valid() && n <= |sector| && k < n
      requires Installing(cache.Entries(), cache.disk.now.sectors, start, Lh(), k, ps) && Distinct(ps)
      requires start + 1 + k < |cache.disk.now.sectors| < 0x1_0000_0000 && sector[k] < |cache.disk.now.sectors|
      modifies cache.bufs, cache.disk
      ensures cache.Valid() && cache.ring == old(cache.ring)
      ensures cache.disk.now.sectors == old(cache.disk.now.sectors)
      ensures cache.disk.past.images == old(cache.disk.past.images)
      ensures lbuf in cache.bufs && dbuf in cache.bufs && lbuf != dbuf
      ensures cache.Entries() == old(cache.Entries())[lbuf := lbuf.st][dbuf := dbuf.st]
      ensures lbuf.st == BufState(true, true, false, ROOTDEV, start + 1 + k, cache.disk.now.sectors[start + 1 + k])
      ensures dbuf.st.busy && dbuf.st.valid && dbuf.st.dev == ROOTDEV && dbuf.st.sector == sector[k]
      ensures Fetched(old(cache.Entries()), lbuf, dbuf, start + 1 + k, sector[k])
    {
      hide Installing, Unique, RingOf, Linked, InOrder, Distinct;
      ghost var es, d := cache.Entries(), cache.disk.now.sectors;
      InstallingFacts(es, d, start, Lh(), k, ps);
      HasRoom(cache.ring, cache.head, cache.bufs, es, d, start, Lh(), k, ps);
      var r := cache.Bread(ROOTDEV, start + k + 1);
      lbuf := r.buf;
      CleanRead(es, d, start, Lh(), k, ps, lbuf, start + k + 1);
      SecondRead(cache.ring, cache.head, cache.bufs, es, d, start, Lh(), k, ps, lbuf, lbuf.st);
      r := cache.Bread(ROOTDEV, sector[k]);
      dbuf := r.buf;
    }

    /** The memmove, bwrite and brelses of a round. */
    method CopyHome(lbuf: Buf, dbuf: Buf, ghost es: map<Buf, BufState>, ghost secs: seq<Word>, ghost k: nat)
      requires cache.Valid() && lbuf in cache.bufs && dbuf in cache.bufs && lbuf != dbuf
      requires k < |secs| && start + 1 + k < 0x1_0000_0000
      requires lbuf.st == BufState(true, true, false, ROOTDEV, start + 1 + k, lbuf.st.data)
      requires dbuf.st.busy && dbuf.st.dev == ROOTDEV && dbuf.st.sector == secs[k] < |cache.disk.now.sectors|
      requires cache.Entries() == es[lbuf := lbuf.st][dbuf := dbuf.st]
      modifies cache, cache.head, cache.bufs, cache.disk
      ensures cache.Valid()
      ensures cache.Entries() == AfterInstall(es, start, secs, k, lbuf, dbuf, old(lbuf.st.data))
      ensures cache.disk.now.sectors == old(cache.disk.now.sectors)[secs[k] := old(lbuf.st.data)]
      ensures cache.disk.past.images == old(cache.disk.past.images) + [cache.disk.now.sectors]
    {
      hide BCache.Valid, Distinct;
      cache.StoreFrom(dbuf, lbuf);
      var ok := cache.Brelse(dbuf);
    }

    /** install_trans. */
    method InstallTrans(ghost ps: seq<Buf>)
      requires cache.Valid() && n <= |sector| && |cache.disk.now.sectors| < 0x1_0000_0000
      requires Installing(cache.Entries(), cache.disk.now.sectors, start, Lh(), 0, ps) && Distinct(ps)
      modifies cache, cache.head, cache.bufs, cache.disk
      ensures cache.Valid()
      ensures Installing(cache.Entries(), cache.disk.now.sectors, start, Lh(), n, ps)
      ensures Fits(old(cache.disk.now.sectors), start, Lh())
      ensures cache.disk.now.sectors == Installed(old(cache.disk.now.sectors), start, Lh(), n)
      ensures cache.disk.past.images
              == old(cache.disk.past.images) + InstallSteps(old(cache.disk.now.sectors), start, Lh())
    {
      hide Installing, BCache.Valid, Distinct;
      ghost var d, past := cache.disk.now.sectors, cache.disk.past.images;
      InstallingFacts(cache.Entries(), d, start, Lh(), 0, ps);
      var tail := 0;
      while tail < n
        invariant 0 <= tail <= n
        invariant cache.Valid() && |cache.disk.now.sectors| < 0x1_0000_0000
        invariant Installing(cache.Entries(), cache.disk.now.sectors, start, Lh(), tail, ps)
        invariant cache.disk.now.sectors == Installed(d, start, Lh(), tail)
        invariant cache.disk.past.images == past + InstallSteps(d, start, Lh())[..tail]
      {
        InstallOne(tail, ps);
        tail := tail + 1;
      }
    }

    /** commit_trans; every buffer must have been released. */
    method CommitTrans()
      requires Valid() && busy && NoneBusy(cache.Entries())
      modifies this, cache, cache.head, cache.bufs, cache.disk
      ensures Valid() && !busy && n == 0 && NoneBusy(cache.Entries())
      ensures Fits(old(cache.disk.now.sectors), start, old(Lh()))
      ensures cache.disk.past.images
              == old(cache.disk.past.images) + CommitSteps(old(cache.disk.now.sectors), start, old(Lh()))
    {
      hide StorageOk, Installing, Unique, RingOf, BCache.Valid, Distinct, CommitSteps, Committed, Fits, NoneBusy;
      cache.ValidIs();
      ghost var v := View();
      CommitStart(v, Cap());
      if n > 0 {
        CommitLogged();
        CommitEnd(v, Cap(), View());
      } else {
        CommitNothing(v, Cap());
      }
      busy := false;
    }

    /** The body of commit_trans when something was logged. */
    method CommitLogged()
      requires cache.Valid() && |sector| == LOGSIZE && 0 < n <= LOGSIZE && |pins| == n && Distinct(pins)
      requires |cache.disk.now.sectors| < 0x1_0000_0000
      requires Installing(cache.Entries(), cache.disk.now.sectors, start, Lh(), 0, pins)
      modifies this`n, this`pins, cache, cache.head, cache.bufs, cache.disk
      ensures cache.Valid() && n == 0 && pins == []
      ensures Installing(cache.Entries(), cache.disk.now.sectors, start, old(Lh()), |old(Lh())|, old(pins))
      ensures Fits(old(cache.disk.now.sectors), start, old(Lh()))
      ensures cache.disk.now.sectors == Committed(old(cache.disk.now.sectors), start, old(Lh()))
      ensures cache.disk.past.images
              == old(cache.disk.past.images) + CommitSteps(old(cache.disk.now.sectors), start, old(Lh()))
    {
      hide Installing, BCache.Valid, Distinct, HeaderBlock, HeaderSectors, Installed, InstallSteps;
      ghost var d, secs := cache.disk.now.sectors, Lh();
      InstallingFacts(cache.Entries(), d, start, secs, 0, pins);
      HeaderRoundTrip(d[start], secs);
      WriteHead(0, secs, pins);
      InstallTrans(pins);
      n := 0;
      WriteHead(|secs|, secs, pins);
      pins := [];
      assert Lh() == [];
    }

    // ----- initlog -----

    /** read_head, on a header that names at most LOGSIZE sectors. */
    method ReadHead()
      requires cache.Valid() && |sector| == LOGSIZE && start < |cache.disk.now.sectors| < 0x1_0000_0000
      requires Installing(cache.Entries(), cache.disk.now.sectors, start, [], 0, [])
      requires HeaderCount(cache.disk.now.sectors[start]) <= LOGSIZE
      modifies this`n, this`sector, cache, cache.head, cache.bufs, cache.disk
      ensures cache.Valid() && |sector| == LOGSIZE && n <= LOGSIZE
      ensures cache.disk.now.sectors == old(cache.disk.now.sectors)
      ensures cache.disk.past.images == old(cache.disk.past.images)
      ensures Installing(cache.Entries(), cache.disk.now.sectors, start, [], 0, [])
      ensures Lh() == HeaderSectors(cache.disk.now.sectors[start])
    {
      hide Installing, Unique, RingOf, Linked, InOrder, Distinct, HeaderCount, HeaderSectors;
      ghost var es, d := cache.Entries(), cache.disk.now.sectors;
      var b := ReadHeader();
      CleanWrite(es, d, start, [], 0, [], b, start, d[start]);
      assert d[start := d[start]] == d;
      TakeHeader(b.st.data);
      var ok := cache.Brelse(b);
      assert cache.Entries() == es[b := BufState(false, true, false, ROOTDEV, start, d[start])];
    }

    /** bread of the header block. */
    method ReadHeader() returns (b: Buf)
      requires cache.Valid() && start < |cache.disk.now.sectors| < 0x1_0000_0000
      requires Installing(cache.Entries(), cache.disk.now.sectors, start, [], 0, [])
      modifies cache.bufs, cache.disk
      ensures cache.Valid() && b in cache.bufs && !old(b.st.dirty)
      ensures Holds(old(cache.Entries()), b, ROOTDEV, start) || NotCached(old(cache.Entries()), ROOTDEV, start)
      ensures cache.disk.now.sectors == old(cache.disk.now.sectors)
      ensures cache.disk.past.images == old(cache.disk.past.images)
      ensures b.st == BufState(true, true, false, ROOTDEV, start, cache.disk.now.sectors[start])
      ensures cache.Entries() == old(cache.Entries())[b := b.st]
    {
      hide Installing, Unique, RingOf, Linked, InOrder, Distinct;
      ghost var es, d := cache.Entries(), cache.disk.now.sectors;
      InstallingFacts(es, d, start, [], 0, []);
      HasRoom(cache.ring, cache.head, cache.bufs, es, d, start, [], 0, []);
      var r := cache.Bread(ROOTDEV, start);
      b := r.buf;
      CleanRead(es, d, start, [], 0, [], b, start);
    }

    /** The assignments of read_head to the in-memory header. */
    method TakeHeader(lh: Block)
      requires |sector| == LOGSIZE && HeaderCount(lh) <= LOGSIZE
      modifies this`n, this`sector
      ensures |sector| == LOGSIZE && n <= LOGSIZE && Lh() == HeaderSectors(lh)
    {
      n := HeaderCount(lh);
      var i := 0;
      while i < n
        invariant 0 <= i <= n == HeaderCount(lh) && |sector| == LOGSIZE
        invariant forall j :: 0 <= j < i ==> sector[j] == GetWord(lh, 1 + j)
      {
        sector := sector[i := GetWord(lh, 1 + i)];
        i := i + 1;
      }
    }

    /** recover_from_log on a cache that holds nothing but clean copies. */
    method RecoverFromLog()
      requires cache.Valid() && |sector| == LOGSIZE && !busy && pins == []
      requires Geometry(cache.disk.now.sectors, start, Cap())
      requires Recoverable(cache.disk.now.sectors, start)
      requires Installing(cache.Entries(), cache.disk.now.sectors, start, [], 0, [])
      modifies this, cache, cache.head, cache.bufs, cache.disk
      ensures Valid() && !busy && n == 0 && NoneBusy(cache.Entries())
      ensures cache.disk.now.sectors == Recovered(old(cache.disk.now.sectors), start)
      ensures cache.disk.past.images
              == old(cache.disk.past.images) + RecoverySteps(old(cache.disk.now.sectors), start)
    {
      hide StorageOk, Installing, HeaderSectors, HeaderCount, InstallSteps, Installed, BCache.Valid;
      ghost var d := cache.disk.now.sectors;
      ReadHead();
      RecoveryStart(cache.Entries(), d, start, Lh());
      InstallTrans([]);
      ghost var secs := Lh();
      n := 0;
      WriteHead(|secs|, secs, []);
      assert Lh() == [];
      RecoveryEnd(d, start, Cap(), secs, View());
    }

    /** The assignments of write_head to the header block. */
    method PutHeader(b: Block) returns (h: Block)
      requires n <= LOGSIZE <= |sector|
      ensures h == HeaderBlock(b, Lh())
    {
      h := SetWord(b, 0, n);
      var i := 0;
      while i < n
        invariant 0 <= i <= n
        invariant h == PutSectors(SetWord(b, 0, n), Lh(), i)
      {
        h := SetWord(h, 1 + i, sector[i]);
        i := i + 1;
      }
    }
  }

  /** A transaction, the blocks its script speaks of, and the disk it starts from. */
  datatype Run = Run(ops: seq<Op>, h: seq<Block>, d: Image, past: seq<Image>)

  ghost predicate RunOk(run: Run, start: nat, cap: nat) {
    && |run.h| == |run.d| && start <= |run.h| && run.h[..start] == run.d[..start]
    && Script(run.h, run.ops) && Home(run.ops, start) && Roomy(run.ops, cap, NBUF)
    && Geometry(run.d, start, cap) && Admissible(Puts(run.ops), start, cap)
  }

  /** Where a transaction stands: the held sectors, what bread has returned, the header, the disk. */
  datatype State = State(held: set<Word>, got: seq<Block>, lh: seq<Word>, now: Image, images: seq<Image>)

  /** After the first k operations of a run. */
  ghost predicate Reached(run: Run, start: nat, cap: nat, k: nat, v: State) {
    && RunOk(run, start, cap) && k <= |run.ops| && |Puts(run.ops[..k])| <= |Puts(run.ops)|
    && v == State(
              Held(run.ops[..k]), Takes(run.ops[..k]), Header(Puts(run.ops[..k])),
              LoggedTake(run.d, start, cap, Puts(run.ops), |Puts(run.ops[..k])|),
              run.past + LogSteps(run.d, start, cap, Puts(run.ops))[..|Puts(run.ops[..k])|])
  }

  lemma ReachedStart(run: Run, start: nat, cap: nat)
    requires RunOk(run, start, cap)
    ensures Reached(run, start, cap, 0, State({}, [], [], run.d, run.past))
  {
    LogStepsNone(run.d, start, cap, Puts(run.ops));
    ScriptStart(run.ops);
  }

  lemma ReachedEnd(run: Run, start: nat, cap: nat, v: State)
    requires Reached(run, start, cap, |run.ops|, v)
    ensures v == State(Held(run.ops), Takes(run.ops), Header(Puts(run.ops)),
                       LoggedTake(run.d, start, cap, Puts(run.ops), |Puts(run.ops)|),
                       run.past + LogSteps(run.d, start, cap, Puts(run.ops)))
  {
    assert run.ops[..|run.ops|] == run.ops;
  }

  /** An operation may be performed: there is a buffer for it, room in the header, and what bread
      returns is what the script says. */
  ghost predicate Ready(v: State, start: nat, cap: nat, op: Op) {
    && Sector(op) < start && start + |v.lh| < |v.now|
    && (!op.Give? ==> |v.held + Elements(v.lh)| < NBUF)
    && match op
       case Take(s, data) => s !in v.held && data == Latest(v.now, start, v.lh, s)
       case Put(w) => w.sector in v.held && |v.lh| < cap && start + 1 + |v.lh| < |v.now|
       case Give(s) => s in v.held
  }

  ghost function Next(v: State, start: nat, cap: nat, op: Op): State
    requires Ready(v, start, cap, op)
  {
    match op
    case Take(s, data) => v.(held := v.held + {s}, got := v.got + [data])
    case Put(w) =>
      var e := Append(v.now, start, v.lh, w);
      v.(lh := Entered(v.lh, w.sector), now := e, images := v.images + [e])
    case Give(s) => v.(held := v.held - {s})
  }

  lemma HeaderRoom(d: Image, start: nat, cap: nat, ws: seq<Write>, k: nat)
    requires Geometry(d, start, cap) && Admissible(ws, start, cap) && k <= |ws|
    ensures start + |Header(ws[..k])| < |d|
  {
    AdmissibleTake(ws, start, cap, k);
    HeaderFits(ws[..k], start, cap);
  }

  lemma ReachedNext(run: Run, start: nat, cap: nat, k: nat, v: State)
    requires Reached(run, start, cap, k, v) && k < |run.ops|
    ensures Ready(v, start, cap, run.ops[k]) && Reached(run, start, cap, k + 1, Next(v, start, cap, run.ops[k]))
  {
    hide LogSteps, LoggedTake, Header, Admissible, Geometry, Script, Roomy, Home, Puts, Takes, Held, Append, Entered,
      Ready, Room, Fair;
    ReachedReady(run, start, cap, k, v);
    var all, ws := Puts(run.ops), Puts(run.ops[..k]);
    PutsPrefix(run.ops, k);
    PutsPrefix(run.ops, k + 1);
    ScriptStep(run.h, run.ops, start, cap, NBUF, k);
    if run.ops[k].Put? {
      PutsNext(run.ops, k);
      LogStepsNext(run.d, start, cap, all, |ws|);
      assert run.past + LogSteps(run.d, start, cap, all)[..|ws|] + [LoggedTake(run.d, start, cap, all, |ws| + 1)]
          == run.past + LogSteps(run.d, start, cap, all)[..|ws| + 1];
    }
  }

  lemma PutsNext(ops: seq<Op>, k: nat)
    requires k < |ops| && ops[k].Put?
    ensures |Puts(ops[..k + 1])| == |Puts(ops[..k])| + 1
    ensures |Puts(ops[..k])| < |Puts(ops)| && Puts(ops)[|Puts(ops[..k])|] == ops[k].w
  {
    PutsPrefix(ops, k + 1);
    assert ops[..k + 1][..k] == ops[..k];
    assert Puts(ops[..k + 1]) == Puts(ops[..k]) + [ops[k].w];
  }

  lemma ReachedReady(run: Run, start: nat, cap: nat, k: nat, v: State)
    requires Reached(run, start, cap, k, v) && k < |run.ops|
    ensures Ready(v, start, cap, run.ops[k])
  {
    hide LogSteps, LoggedTake, Header, Admissible, Geometry, Script, Roomy, Home, Puts, Takes, Held, Latest;
    PutsPrefix(run.ops, k);
    PutsPrefix(run.ops, k + 1);
    ScriptStep(run.h, run.ops, start, cap, NBUF, k);
    HeaderRoom(run.d, start, cap, Puts(run.ops), |Puts(run.ops[..k])|);
    if run.ops[k].Put? {
      LogStepsNext(run.d, start, cap, Puts(run.ops), |Puts(run.ops[..k])|);
    }
    if run.ops[k].Take? {
      SeenInScript(run.d, run.h, run.ops, start, cap, k, run.ops[k].s);
    }
  }

  /** What bread returns in the k-th place is what the script says. */
  lemma SeenInScript(d: Image, h: seq<Block>, ops: seq<Op>, start: nat, cap: nat, k: nat, s: Word)
    requires Geometry(d, start, cap) && Admissible(Puts(ops), start, cap)
    requires |h| == |d| && h[..start] == d[..start] && k < |ops| && s < start
    requires forall i :: 0 <= i < |Puts(ops[..k])| ==> Puts(ops[..k])[i].sector < start
    requires |Puts(ops[..k])| <= |Puts(ops)| && Puts(ops)[..|Puts(ops[..k])|] == Puts(ops[..k])
    requires Apply(h, Puts(ops[..k]))[..start] == Apply(h[..start], Puts(ops[..k]))
    ensures var ws := Puts(ops[..k]);
            && start + |Header(ws)| < |d|
            && Latest(LoggedTake(d, start, cap, Puts(ops), |ws|), start, Header(ws), s) == Apply(h, ws)[s]
  {
    var ws := Puts(ops[..k]);
    AdmissibleTake(Puts(ops), start, cap, |ws|);
    OpenTransaction(d, start, cap, ws);
    assert Apply(h, ws)[s] == Apply(h, ws)[..start][s];
  }
}
