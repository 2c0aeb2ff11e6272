/** The in-memory disk of memide.c and the buffer cache of bio.c. */
module BufferCache {
  import opened Basics
  import opened Recency
  import opened Blocks
  import opened RedoLog

  const NBUF: nat := 10
  const ROOTDEV: Word := 1
  const NODEV: Word := 0xFFFF_FFFF  // what binit stores: (uint)-1

  /** Everything about a buffer except its place in the list. */
  datatype BufState = BufState(busy: bool, valid: bool, dirty: bool, dev: Word, sector: Word, data: Block)

  class Buf {
    var st: BufState
    var prev: Buf
    var next: Buf

    constructor ()
      ensures st == BufState(false, false, false, 0, 0, ZERO_BLOCK)
    {
      st := BufState(false, false, false, 0, 0, ZERO_BLOCK);
      prev, next := this, this;
    }
  }

  /** The disk, one block per sector. */
  datatype Contents = Contents(sectors: Image)

  /** Every image the disk has had, oldest first. */
  datatype History = History(images: seq<Image>)

  class MemDisk {
    var now: Contents
    ghost var past: History

    ghost predicate Valid()
      reads this
    {
      past.images != [] && past.images[|past.images| - 1] == now.sectors
    }

    constructor (image: Image)
      ensures Valid() && now.sectors == image && past.images == [image]
    {
      now, past := Contents(image), History([image]);
    }

    /** Write the buffer if it is dirty, read it if it is not valid; false is one of the four panics. */
    method Iderw(b: Buf) returns (ok: bool)
      requires Valid()
      modifies this, b`st
      ensures Valid()
      ensures ok <==>
                && b.st.busy && (old(b.st.dirty) || !old(b.st.valid))
                && b.st.dev == 1 && b.st.sector < |old(now.sectors)|
      ensures !ok ==> b.st == old(b.st) && now.sectors == old(now.sectors) && past.images == old(past.images)
      ensures ok && old(b.st.dirty) ==>
                && b.st == old(b.st).(dirty := false, valid := true)
                && |now.sectors| == |old(now.sectors)| && now.sectors == old(now.sectors)[b.st.sector := b.st.data]
                && past.images == old(past.images) + [now.sectors]
      ensures ok && !old(b.st.dirty) ==>
                && now.sectors == old(now.sectors) && past.images == old(past.images)
                && b.st == old(b.st).(valid := true, data := now.sectors[b.st.sector])
    {
      if !b.st.busy || (b.st.valid && !b.st.dirty) || b.st.dev != ROOTDEV || b.st.sector >= |now.sectors| {
        return false;
      }
      if b.st.dirty {
        b.st := b.st.(dirty := false);
        now := Contents(now.sectors[b.st.sector := b.st.data]);
        past := History(past.images + [now.sectors]);
      } else {
        b.st := b.st.(data := now.sectors[b.st.sector]);
      }
      b.st := b.st.(valid := true);
      ok := true;
    }
  }

  // ----- the list of buffers -----

  /** ring is a circular doubly linked list, entered at ring[0]. */
  ghost predicate Linked(ring: seq<Buf>)
    reads ring`prev, ring`next
  {
    && (forall i {:trigger ring[i].next} :: 0 <= i < |ring| ==>
          ring[i].next == ring[if i + 1 == |ring| then 0 else i + 1])
    && (forall i {:trigger ring[i].prev} :: 0 <= i < |ring| ==>
          ring[i].prev == ring[if i == 0 then |ring| - 1 else i - 1])
  }

  /** ring is the head followed by a permutation of the buffers. */
  ghost predicate RingOf<T>(ring: seq<T>, head: T, bufs: seq<T>) {
    && |bufs| == NBUF && Distinct(bufs) && head !in bufs
    && |ring| == NBUF + 1 && Distinct(ring) && ring[0] == head
    && (forall i :: 1 <= i < |ring| ==> ring[i] in bufs)
    && (forall j :: 0 <= j < |bufs| ==> bufs[j] in ring)
  }

  lemma ToFrontPermutes<T>(ring: seq<T>, k: nat, head: T, bufs: seq<T>)
    requires 0 < k < |ring| && RingOf(ring, head, bufs)
    ensures RingOf(ToFront(ring, k), head, bufs)
  {
    var r := ToFront(ring, k);
    forall j | 0 <= j < |bufs|
      ensures bufs[j] in r
    {
      var i :| 0 <= i < |ring| && ring[i] == bufs[j];
      assert r[if i == k then 1 else if 1 <= i < k then i + 1 else i] == ring[i];
    }
  }

  /** The outcome of bget and bread. */
  datatype Got = Got(buf: Buf) | Sleeps(on: Buf) | Panics

  /** The static array of buffers. */
  method AllocBufs() returns (pool: seq<Buf>)
    ensures |pool| == NBUF && fresh(pool) && Distinct(pool)
    ensures forall b :: b in pool ==> b.st == BufState(false, false, false, 0, 0, ZERO_BLOCK)
  {
    pool := [];
    while |pool| < NBUF
      invariant |pool| <= NBUF && fresh(pool) && Distinct(pool)
      invariant forall b :: b in pool ==> b.st == BufState(false, false, false, 0, 0, ZERO_BLOCK)
    {
      var b := new Buf();
      pool := pool + [b];
    }
  }

  class BCache {
    const disk: MemDisk
    const bufs: seq<Buf>
    const head: Buf
    ghost var ring: seq<Buf>      // head, then the buffers, most recently released first
    ghost var released: seq<Buf>  // every buffer given to brelse, in order

    ghost predicate Valid()
      reads this, disk, bufs`st, ring`prev, ring`next
    {
      && disk.Valid()
      && ListOk()
      && Unique(Entries())
      && InOrder([head] + Reversed(bufs), released, ring)
    }

    lemma ValidIs()
      requires Valid()
      ensures RingOf(ring, head, bufs) && Unique(Entries())
    {
    }

    /** The list is a ring through the head and all the buffers. */
    ghost predicate ListOk()
      reads this, ring`prev, ring`next
    {
      RingOf(ring, head, bufs) && Linked(ring)
    }

    /** The contents of the cache, buffer by buffer. */
    ghost function Entries(): (es: map<Buf, BufState>)
      reads bufs`st
    {
      map b | b in bufs :: b.st
    }

    /** binit: every buffer is on the list and belongs to no device. */
    constructor (disk: MemDisk)
      requires disk.Valid()
      ensures Valid() && this.disk == disk
      ensures fresh(bufs) && fresh(head) && |bufs| == 10
      ensures forall b :: b in bufs ==> b.st == BufState(false, false, false, NODEV, 0, ZERO_BLOCK)
    {
      hide InOrder, RingOf, Distinct, Reversed, Linked;
      this.disk := disk;
      var h := new Buf();
      this.head := h;
      var pool := AllocBufs();
      this.bufs := pool;
      this.ring, this.released := [], [];
      new;
      Binit();
      FirstRing(head, bufs);
      assert forall b :: b in bufs ==> exists i :: 0 <= i < |bufs| && bufs[i] == b;
    }

    /** The list part of binit. */
    method Binit()
      requires Distinct(bufs) && head !in bufs
      modifies this`ring, head, bufs
      ensures ring == [head] + Reversed(bufs)
      ensures Linked(ring)
      ensures forall j :: 0 <= j < |bufs| ==> bufs[j].st == old(bufs[j].st).(dev := NODEV)
    {
      head.prev := head;
      head.next := head;
      ring := [head];
      assert Linked(ring);
      LinkAll();
      assert bufs[..|bufs|] == bufs;
    }

    /** The loop of binit. */
    method LinkAll()
      requires Distinct(bufs) && head !in bufs && ring == [head] && Linked(ring)
      modifies this`ring, head`prev, head`next, bufs
      ensures ring == [head] + Reversed(bufs[..|bufs|])
      ensures Linked(ring)
      ensures forall j :: 0 <= j < |bufs| ==> bufs[j].st == old(bufs[j].st).(dev := NODEV)
    {
      hide Linked, InOrder, Distinct;
      var i := 0;
      while i < |bufs|
        invariant 0 <= i <= |bufs|
        invariant ring == [head] + Reversed(bufs[..i])
        invariant Linked(ring)
        invariant forall j :: 0 <= j < i ==> bufs[j].st == old(bufs[j].st).(dev := NODEV)
        invariant forall j :: i <= j < |bufs| ==> bufs[j].st == old(bufs[j].st)
      {
        LinkNext(i);
        i := i + 1;
      }
    }

    /** One round of binit's loop. */
    method LinkNext(i: nat)
      requires i < |bufs| && Distinct(bufs) && head !in bufs && ring == [head] + Reversed(bufs[..i]) && Linked(ring)
      modifies this`ring, head`prev, head`next, bufs
      ensures ring == [head] + Reversed(bufs[..i + 1])
      ensures Linked(ring)
      ensures forall j :: 0 <= j < |bufs| ==>
                bufs[j].st == if j == i then old(bufs[j].st).(dev := NODEV) else old(bufs[j].st)
    {
      hide Linked, InOrder, Distinct;
      ReversedStep(bufs, i, head);
      bufs[i].st := bufs[i].st.(dev := NODEV);
      LinkFront(bufs[i]);
    }

    /** The pointer assignments of binit and brelse: b goes in just behind the head. */
    method LinkFront(b: Buf)
      requires ring != [] && ring[0] == head && Linked(ring) && Distinct(ring) && b !in ring
      modifies this`ring, b`prev, b`next, ring`prev, ring`next
      ensures ring == [head, b] + old(ring)[1..]
      ensures Linked(ring)
    {
      assert head.next == ring[if 1 == |ring| then 0 else 1];
      b.next := head.next;
      b.prev := head;
      head.next.prev := b;
      head.next := b;
      ring := [head, b] + ring[1..];
    }

    /** A busy buffer for the sector: the one that holds it, or else the least recently
        released buffer that is neither busy nor dirty. */
    method Bget(dev: Word, sector: Word) returns (r: Got)
      requires Valid() && dev != NODEV
      modifies bufs
      ensures Valid() && ring == old(ring)
      ensures r.Got? ==>
                && r.buf in bufs && !old(r.buf.st.busy)
                && Entries() == old(Entries())[r.buf := r.buf.st]
                && (Holds(old(Entries()), r.buf, dev, sector) ==> r.buf.st == old(r.buf.st).(busy := true))
                && (!Holds(old(Entries()), r.buf, dev, sector) ==>
                      && NotCached(old(Entries()), dev, sector)
                      && !old(r.buf.st.dirty)
                      && r.buf.st == BufState(true, false, false, dev, sector, old(r.buf.st.data))
                      && exists k :: 0 < k <= NBUF && ring[k] == r.buf && PinnedFrom(ring, old(Entries()), k + 1))
      ensures r.Sleeps? ==>
                && Entries() == old(Entries())
                && Holds(Entries(), r.on, dev, sector) && Entries()[r.on].busy
      ensures r.Panics? ==>
                && Entries() == old(Entries())
                && NotCached(Entries(), dev, sector) && forall b :: b in bufs ==> Pinned(b.st)
    {
      hide InOrder, RingOf, Linked, Unique;
      var c := Find(dev, sector);
      if c != null {
        if !c.st.busy {
          Put(c, c.st.(busy := true));
          PutUnique(old(Entries()), c, c.st);
          return Got(c);
        }
        return Sleeps(c);
      }
      r := Recycle(dev, sector);
    }

    /** The second half of bget, for a sector that is not cached. */
    method Recycle(dev: Word, sector: Word) returns (r: Got)
      requires Valid() && NotCached(Entries(), dev, sector)
      modifies bufs
      ensures Valid() && ring == old(ring)
      ensures r.Got? ==>
                && r.buf in bufs && !old(r.buf.st.busy) && !old(r.buf.st.dirty)
                && Entries() == old(Entries())[r.buf := r.buf.st]
                && r.buf.st == BufState(true, false, false, dev, sector, old(r.buf.st.data))
                && exists k :: 0 < k <= NBUF && ring[k] == r.buf && PinnedFrom(ring, old(Entries()), k + 1)
      ensures !r.Got? ==>
                && r.Panics?
                && Entries() == old(Entries())
                && forall b :: b in bufs ==> Pinned(b.st)
    {
      hide InOrder, RingOf, Linked, Unique;
      var c := Spare();
      if c == null {
        return Panics;
      }
      Put(c, BufState(true, false, false, dev, sector, c.st.data));
      PutUnique(old(Entries()), c, c.st);
      r := Got(c);
    }

    /** Assign flags, device, sector or data of a buffer; its place in the list stays. */
    method Put(b: Buf, st: BufState)
      requires b in bufs
      modifies b`st
      ensures ListOk() == old(ListOk())
      ensures b.st == st
      ensures Entries() == old(Entries())[b := st]
    {
      b.st := st;
    }

    /** The forward walk of bget. */
    method Find(dev: Word, sector: Word) returns (r: Buf?)
      requires Valid()
      ensures r == null ==> NotCached(Entries(), dev, sector)
      ensures r != null ==> r in bufs && Holds(Entries(), r, dev, sector)
    {
      hide InOrder;
      var b := head.next;
      ghost var k := 1;
      while b != head
        invariant 1 <= k <= |ring| && b == ring[if k == |ring| then 0 else k]
        invariant forall j :: 1 <= j < k ==> !(ring[j].st.dev == dev && ring[j].st.sector == sector)
        decreases |ring| - k
      {
        if b.st.dev == dev && b.st.sector == sector {
          return b;
        }
        b := b.next;
        k := k + 1;
      }
      r := null;
    }

    /** The backward walk of bget. */
    method Spare() returns (r: Buf?)
      requires Valid()
      ensures r == null ==> forall b :: b in bufs ==> Pinned(b.st)
      ensures r != null ==>
                && r in bufs && !Pinned(r.st)
                && exists k :: 0 < k <= NBUF && ring[k] == r && PinnedFrom(ring, Entries(), k + 1)
    {
      hide InOrder;
      var b := head.prev;
      ghost var k := |ring| - 1;
      while b != head
        invariant 0 <= k < |ring| && b == ring[k]
        invariant PinnedFrom(ring, Entries(), k + 1)
        decreases k
      {
        if !b.st.busy && !b.st.dirty {
          return b;
        }
        assert Pinned(b.st);
        b := b.prev;
        k := k - 1;
      }
      r := null;
      forall x | x in bufs
        ensures Pinned(x.st)
      {
        var j :| 0 <= j < |ring| && ring[j] == x;
        assert x in Entries();
      }
    }

    /** A busy and valid buffer with the contents of the sector. */
    method Bread(dev: Word, sector: Word) returns (r: Got)
      requires Valid() && dev != NODEV
      requires DirtyIsValid(Entries())
      modifies bufs, disk
      ensures Valid() && ring == old(ring)
      ensures disk.now.sectors == old(disk.now.sectors) && disk.past.images == old(disk.past.images)
      ensures r.Got? ==>
                && r.buf in bufs && !old(r.buf.st.busy)
                && Entries() == old(Entries())[r.buf := r.buf.st]
                && if Holds(old(Entries()), r.buf, dev, sector) && old(r.buf.st.valid)
                   then r.buf.st == old(r.buf.st).(busy := true)
                   else
                     && sector < |disk.now.sectors|
                     && !old(r.buf.st.dirty)
                     && (!Holds(old(Entries()), r.buf, dev, sector) ==> NotCached(old(Entries()), dev, sector))
                     && r.buf.st == BufState(true, true, false, dev, sector, disk.now.sectors[sector])
      ensures r.Sleeps? ==>
                && Entries() == old(Entries())
                && Holds(Entries(), r.on, dev, sector) && Entries()[r.on].busy
      ensures r.Panics? && dev == ROOTDEV && sector < |disk.now.sectors| ==>
                && NotCached(old(Entries()), dev, sector) && forall b :: b in bufs ==> Pinned(old(Entries())[b])
    {
      hide InOrder, RingOf, Linked, Unique;
      r := Bget(dev, sector);
      if r.Got? && !r.buf.st.valid {
        var ok := Transfer(r.buf);
        if !ok {
          return Panics;
        }
      }
    }

    /** Write the buffer to its sector; false is one of the panics. */
    method Bwrite(b: Buf) returns (ok: bool)
      requires Valid() && b in bufs
      modifies b`st, disk
      ensures Valid() && ring == old(ring)
      ensures Entries() == old(Entries())[b := b.st]
      ensures ok <==> old(b.st.busy && b.st.dev == ROOTDEV && b.st.sector < |disk.now.sectors|)
      ensures !ok ==> disk.now.sectors == old(disk.now.sectors) && disk.past.images == old(disk.past.images)
      ensures ok ==>
                && b.st == old(b.st).(dirty := false, valid := true)
                && |disk.now.sectors| == |old(disk.now.sectors)|
                && disk.now.sectors == old(disk.now.sectors)[b.st.sector := b.st.data]
                && disk.past.images == old(disk.past.images) + [disk.now.sectors]
    {
      hide InOrder, RingOf, Linked, Unique;
      if !b.st.busy {
        assert Entries() == old(Entries())[b := b.st];
        return false;
      }
      Put(b, b.st.(dirty := true));
      PutUnique(old(Entries()), b, b.st);
      ok := Transfer(b);
    }

    /** memmove into a held buffer, then bwrite. */
    method Store(b: Buf, data: Block)
      requires Valid() && b in bufs && b.st.busy && b.st.dev == ROOTDEV && b.st.sector < |disk.now.sectors|
      modifies b`st, disk
      ensures Valid() && ring == old(ring)
      ensures b.st == old(b.st).(valid := true, dirty := false, data := data)
      ensures Entries() == old(Entries())[b := b.st]
      ensures |disk.now.sectors| == |old(disk.now.sectors)|
      ensures disk.now.sectors == old(disk.now.sectors)[b.st.sector := data]
      ensures disk.past.images == old(disk.past.images) + [disk.now.sectors]
    {
      hide InOrder, RingOf, Linked, Unique;
      Put(b, b.st.(data := data));
      PutUnique(old(Entries()), b, b.st);
      var ok := Bwrite(b);
    }

    /** Give the buffer up and make it the most recently released; false is the panic. */
    method Brelse(b: Buf) returns (ok: bool)
      requires Valid() && b in bufs
      modifies this`ring, this`released, b`st, head`prev, head`next, bufs`prev, bufs`next
      ensures Valid()
      ensures ok == old(b.st.busy)
      ensures released == old(released) + if ok then [b] else []
      ensures b.st == old(b.st).(busy := false)
      ensures Entries() == old(Entries())[b := b.st]
      ensures ok ==> exists k :: 0 < k <= NBUF && old(ring)[k] == b && ring == ToFront(old(ring), k)
      ensures !ok ==> ring == old(ring)
    {
      hide InOrder, RingOf, Linked, Unique, ToFront, Reversed;
      if !b.st.busy {
        assert Entries() == old(Entries())[b := b.st];
        return false;
      }
      Refile(b);
      Put(b, b.st.(busy := false));
      PutUnique(old(Entries()), b, b.st);
      ok := true;
    }

    /** memmove into a held buffer, bwrite and brelse. */
    method StoreAndRelease(b: Buf, data: Block)
      requires Valid() && b in bufs && b.st.busy && b.st.dev == ROOTDEV && b.st.sector < |disk.now.sectors|
      modifies this`ring, this`released, b`st, head`prev, head`next, bufs`prev, bufs`next, disk
      ensures Valid()
      ensures b.st == old(b.st).(busy := false, valid := true, dirty := false, data := data)
      ensures Entries() == old(Entries())[b := b.st]
      ensures |disk.now.sectors| == |old(disk.now.sectors)|
      ensures disk.now.sectors == old(disk.now.sectors)[b.st.sector := data]
      ensures disk.past.images == old(disk.past.images) + [disk.now.sectors]
    {
      hide Unique, RingOf, Linked, InOrder, Distinct, ToFront;
      Store(b, data);
      var ok := Brelse(b);
    }

    /** Copy the block of l into x, bwrite x and brelse l. */
    method StoreFrom(x: Buf, l: Buf)
      requires Valid() && x in bufs && l in bufs && x != l && l.st.busy
      requires x.st.busy && x.st.dev == ROOTDEV && x.st.sector < |disk.now.sectors|
      modifies this`ring, this`released, x`st, l`st, head`prev, head`next, bufs`prev, bufs`next, disk
      ensures Valid()
      ensures x.st == old(x.st).(valid := true, dirty := false, data := old(l.st.data))
      ensures l.st == old(l.st).(busy := false)
      ensures Entries() == old(Entries())[x := x.st][l := l.st]
      ensures |disk.now.sectors| == |old(disk.now.sectors)|
      ensures disk.now.sectors == old(disk.now.sectors)[x.st.sector := x.st.data]
      ensures disk.past.images == old(disk.past.images) + [disk.now.sectors]
    {
      hide Unique, RingOf, Linked, InOrder, Distinct, ToFront;
      Store(x, l.st.data);
      var ok := Brelse(l);
    }

    /** The pointer assignments of brelse. */
    method Refile(b: Buf)
      requires ListOk() && b in bufs && InOrder([head] + Reversed(bufs), released, ring)
      modifies this`ring, this`released, head`prev, head`next, bufs`prev, bufs`next
      ensures ListOk() && InOrder([head] + Reversed(bufs), released, ring) && released == old(released) + [b]
      ensures exists k :: 0 < k <= NBUF && old(ring)[k] == b && ring == ToFront(old(ring), k)
    {
      hide InOrder;
      ghost var k :| 0 <= k < |ring| && ring[k] == b;
      ReleasedMore([head] + Reversed(bufs), released, ring, k);
      released := released + [b];
      ToFrontPermutes(ring, k, head, bufs);
      Unlink(b, k);
      LinkFront(b);
      assert ring == ToFront(old(ring), k);
    }

    /** The first two pointer assignments of brelse: b leaves the list. */
    method Unlink(b: Buf, ghost k: nat)
      requires 0 < k < |ring| && Linked(ring) && Distinct(ring) && ring[k] == b
      modifies this`ring, ring`prev, ring`next
      ensures ring == Without(old(ring), k) && Linked(ring)
    {
      ghost var o := ring;
      assert b.prev == o[k - 1] && b.next == o[if k + 1 == |o| then 0 else k + 1];
      b.next.prev := b.prev;
      b.prev.next := b.next;
      ghost var r := Without(o, k);
      forall i | 0 <= i < |r|
        ensures r[i].next == r[if i + 1 == |r| then 0 else i + 1]
      {
        var j := if i < k then i else i + 1;
        assert r[i] == o[j];
        if i != k - 1 {
          assert o[j] != o[k - 1];
          assert r[i].next == old(r[i].next) == o[if j + 1 == |o| then 0 else j + 1];
          assert r[if i + 1 == |r| then 0 else i + 1] == o[if j + 1 == |o| then 0 else j + 1];
        }
      }
      forall i | 0 <= i < |r|
        ensures r[i].prev == r[if i == 0 then |r| - 1 else i - 1]
      {
        var j := if i < k then i else i + 1;
        assert r[i] == o[j];
        if i != (if k == |r| then 0 else k) {
          assert o[j] != o[if k + 1 == |o| then 0 else k + 1];
          assert r[i].prev == old(r[i].prev) == o[if j == 0 then |o| - 1 else j - 1];
          assert r[if i == 0 then |r| - 1 else i - 1] == o[if j == 0 then |o| - 1 else j - 1];
        }
      }
      ring := r;
    }

    /** iderw on a buffer of the cache. */
    method Transfer(b: Buf) returns (ok: bool)
      requires Valid() && b in bufs && b.st.busy
      modifies b`st, disk
      ensures Valid()
      ensures Entries() == old(Entries())[b := b.st]
      ensures ok <==>
                (old(b.st.dirty) || !old(b.st.valid)) && b.st.dev == ROOTDEV && b.st.sector < |old(disk.now.sectors)|
      ensures !ok ==>
                && b.st == old(b.st) && disk.now.sectors == old(disk.now.sectors)
                && disk.past.images == old(disk.past.images)
      ensures ok && old(b.st.dirty) ==>
                && b.st == old(b.st).(dirty := false, valid := true)
                && |disk.now.sectors| == |old(disk.now.sectors)|
                && disk.now.sectors == old(disk.now.sectors)[b.st.sector := b.st.data]
                && disk.past.images == old(disk.past.images) + [disk.now.sectors]
      ensures ok && !old(b.st.dirty) ==>
                && disk.now.sectors == old(disk.now.sectors) && disk.past.images == old(disk.past.images)
                && b.st == old(b.st).(valid := true, data := disk.now.sectors[b.st.sector])
    {
      hide InOrder, RingOf, Linked, Unique;
      ghost var es := Entries();
      ok := disk.Iderw(b);
      assert Entries() == es[b := b.st];
      PutUnique(es, b, b.st);
    }
  }

  /** At most one buffer holds any sector of a real device. */
  ghost predicate Unique(es: map<Buf, BufState>) {
    forall x, y :: x in es && y in es && x != y && es[x].dev == es[y].dev && es[x].sector == es[y].sector ==>
      es[x].dev == NODEV
  }

  ghost predicate Holds(es: map<Buf, BufState>, b: Buf, dev: Word, sector: Word) {
    b in es && es[b].dev == dev && es[b].sector == sector
  }

  ghost predicate NotCached(es: map<Buf, BufState>, dev: Word, sector: Word) {
    forall b :: b in es ==> !Holds(es, b, dev, sector)
  }

  /** bget may not recycle the buffer. */
  predicate Pinned(s: BufState) {
    s.busy || s.dirty
  }

  /** Every buffer at or after position k of the list is pinned. */
  ghost predicate PinnedFrom(ring: seq<Buf>, es: map<Buf, BufState>, k: nat) {
    forall j :: k <= j < |ring| && ring[j] in es ==> Pinned(es[ring[j]])
  }

  ghost predicate DirtyIsValid(es: map<Buf, BufState>) {
    forall b :: b in es && es[b].dirty ==> es[b].valid
  }

  lemma PutUnique(es: map<Buf, BufState>, b: Buf, s: BufState)
    requires Unique(es) && b in es
    requires Holds(es, b, s.dev, s.sector) || NotCached(es, s.dev, s.sector)
    ensures Unique(es[b := s])
  {
    if !Holds(es, b, s.dev, s.sector) {
      assert forall x :: x in es ==> !Holds(es, x, s.dev, s.sector);
    }
  }

  ghost function Reversed<T>(s: seq<T>): (r: seq<T>)
    ensures |r| == |s|
    ensures forall i :: 0 <= i < |s| ==> r[i] == s[|s| - 1 - i]
  {
    seq(|s|, i requires 0 <= i < |s| => s[|s| - 1 - i])
  }

  lemma ReversedStep<T>(s: seq<T>, i: nat, h: T)
    requires i < |s| && Distinct(s) && h !in s
    ensures Reversed(s[..i + 1]) == [s[i]] + Reversed(s[..i])
    ensures s[i] !in [h] + Reversed(s[..i]) && Distinct([h] + Reversed(s[..i]))
    ensures forall x :: x in [h] + Reversed(s[..i]) ==> x == h || x in s
    ensures forall j :: 0 <= j < |s| && j != i ==> s[j] != s[i]
  {
  }

  /** At any time, the list has what was released later in front of what was released earlier. */
  lemma ListInOrder(cache: BCache, x: Buf, y: Buf)
    requires cache.Valid() && x in cache.bufs && y in cache.bufs
    requires LastRelease(cache.released, x) > LastRelease(cache.released, y)
    ensures x in cache.ring && y in cache.ring && IndexIn(cache.ring, x) < IndexIn(cache.ring, y)
  {
    ReversedAll(cache.bufs);
    var first := [cache.head] + Reversed(cache.bufs);
    assert first[1..] == Reversed(cache.bufs);
    hide Linked, Unique, RingOf;
    MostRecentFirst(first, cache.released, x, y);
  }

  lemma FirstRing<T>(h: T, s: seq<T>)
    requires Distinct(s) && h !in s && |s| == NBUF
    ensures RingOf([h] + Reversed(s), h, s) && InOrder([h] + Reversed(s), [], [h] + Reversed(s))
  {
    ReversedAll(s);
    forall j | 0 <= j < |s| ensures s[j] in Reversed(s) {
    }
  }

  lemma ReversedAll<T>(s: seq<T>)
    ensures forall x :: x in Reversed(s) <==> x in s
    ensures Distinct(s) ==> Distinct(Reversed(s))
  {
    var r := Reversed(s);
    forall x | x in s
      ensures x in r
    {
      var i :| 0 <= i < |s| && s[i] == x;
      assert r[|s| - 1 - i] == x;
    }
  }
}
