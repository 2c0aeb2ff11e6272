/** How many blocks a write needs and how many are left: what decides between success and the
    ways balloc can go wrong. */
module FileNeeds {
  import opened Blocks
  import opened FileState
  import opened FileSteps

  /** Clear bits below n. */
  function ClearBelow(f: FileSys, n: nat): (c: nat)
    requires Shape(f) && n <= f.sb.size
    ensures c == 0 <==> forall b :: 0 <= b < n ==> Bit(f, b)
  {
    if n == 0 then 0 else ClearBelow(f, n - 1) + if Bit(f, n - 1) then 0 else 1
  }

  /** Blocks that balloc can rightly give out. */
  function Left(f: FileSys): nat
    requires Shape(f)
  {
    ClearBelow(f, LogStart(f.sb))
  }

  /** Some sector of the log has a clear bit, as mkfs leaves them. */
  ghost predicate LogClear(f: FileSys)
    requires Shape(f)
  {
    exists b :: LogStart(f.sb) <= b < f.sb.size && !Bit(f, b)
  }

  /** f and g differ by k blocks taken from those below the log. */
  ghost predicate Fed(f: FileSys, g: FileSys, k: nat) {
    Shape(f) && Shape(g) && f.sb == g.sb && Left(g) + k == Left(f) && (LogClear(g) <==> LogClear(f))
  }

  lemma {:induction false} OneBitLess(f: FileSys, g: FileSys, b: nat, n: nat)
    requires Shape(f) && Shape(g) && f.sb == g.sb && b < f.sb.size && n <= f.sb.size && !Bit(f, b)
    requires forall x :: 0 <= x < f.sb.size ==> (Bit(g, x) <==> Bit(f, x) || x == b)
    ensures ClearBelow(g, n) == ClearBelow(f, n) - if b < n then 1 else 0
  {
    hide Bit;
    if n > 0 {
      OneBitLess(f, g, b, n - 1);
    }
  }

  lemma FedOne(f: FileSys, g: FileSys, b: nat)
    requires Shape(f) && Shape(g) && f.sb == g.sb && b < LogStart(f.sb) && !Bit(f, b)
    requires forall x :: 0 <= x < f.sb.size ==> (Bit(g, x) <==> Bit(f, x) || x == b)
    ensures Fed(f, g, 1)
  {
    hide Bit;
    OneBitLess(f, g, b, LogStart(f.sb));
  }

  lemma {:induction false} SameBits(f: FileSys, g: FileSys, n: nat)
    requires Shape(f) && Shape(g) && f.sb == g.sb && n <= f.sb.size
    requires forall x :: 0 <= x < f.sb.size ==> (Bit(g, x) <==> Bit(f, x))
    ensures ClearBelow(g, n) == ClearBelow(f, n)
  {
    hide Bit;
    if n > 0 {
      SameBits(f, g, n - 1);
    }
  }

  lemma FedNone(f: FileSys, g: FileSys)
    requires Shape(f) && Shape(g) && f.sb == g.sb
    requires forall x :: 0 <= x < f.sb.size ==> (Bit(g, x) <==> Bit(f, x))
    ensures Fed(f, g, 0)
  {
    hide Bit;
    SameBits(f, g, LogStart(f.sb));
  }

  /** The block balloc takes, the first with a clear bit, lies below the log just if any such is left
      there; else it is a sector of the log, if one of those is clear. */
  lemma FirstClear(f: FileSys, b: nat)
    requires Shape(f) && b <= f.sb.size && (forall x :: 0 <= x < b ==> Bit(f, x)) && (b < f.sb.size ==> !Bit(f, b))
    ensures b < LogStart(f.sb) <==> Left(f) > 0
    ensures LogStart(f.sb) <= b < f.sb.size <==> Left(f) == 0 && LogClear(f)
    ensures b == f.sb.size <==> Left(f) == 0 && !LogClear(f)
  {
    hide Bit;
  }

  // ----- what a range of file blocks needs -----

  /** Blocks from lo up to hi that the locked inode does not have. */
  function Missing(f: FileSys, lo: nat, hi: nat): (c: nat)
    requires Shape(f) && hi <= MAXFILE
  {
    if hi <= lo then 0 else Missing(f, lo, hi - 1) + if Data(f, f.ip.inum, hi - 1) == 0 then 1 else 0
  }

  /** Those, and the indirect block if the range needs it and there is none. */
  function Need(f: FileSys, lo: nat, hi: nat): (c: nat)
    requires Shape(f) && hi <= MAXFILE
  {
    if hi <= lo then 0 else Missing(f, lo, hi) + if hi > NDIRECT && f.ip.addrs[NDIRECT] == 0 then 1 else 0
  }

  /** What giving the locked inode the blocks from lo up to hi comes to. */
  ghost predicate Fetched(f: FileSys, g: FileSys, lo: nat, hi: nat) {
    && lo <= hi <= MAXFILE && SameFrame(f, g) && Fed(f, g, Need(f, lo, hi))
    && (forall bn :: 0 <= bn < MAXFILE && !(lo <= bn < hi) ==> Data(g, f.ip.inum, bn) == Data(f, f.ip.inum, bn))
    && (forall bn :: lo <= bn < hi ==>
          && Data(g, f.ip.inum, bn) != 0
          && (Data(f, f.ip.inum, bn) != 0 ==> Data(g, f.ip.inum, bn) == Data(f, f.ip.inum, bn)))
    && (g.ip.addrs[NDIRECT] == 0 <==> f.ip.addrs[NDIRECT] == 0 && (lo == hi || hi <= NDIRECT))
  }

  lemma {:induction false} MissingSame(f: FileSys, g: FileSys, lo: nat, hi: nat)
    requires SameFrame(f, g) && hi <= MAXFILE
    requires forall bn :: lo <= bn < hi ==> Data(g, f.ip.inum, bn) == Data(f, f.ip.inum, bn)
    ensures Missing(g, lo, hi) == Missing(f, lo, hi)
  {
    hide Slot;
    if lo < hi {
      MissingSame(f, g, lo, hi - 1);
    }
  }

  lemma {:induction false} MissingSplit(f: FileSys, lo: nat, mid: nat, hi: nat)
    requires Shape(f) && lo <= mid <= hi <= MAXFILE
    ensures Missing(f, lo, hi) == Missing(f, lo, mid) + Missing(f, mid, hi)
  {
    hide Slot;
    if mid < hi {
      MissingSplit(f, lo, mid, hi - 1);
    }
  }

  lemma {:induction false} MissingNone(f: FileSys, lo: nat, hi: nat)
    requires Shape(f) && lo <= hi <= MAXFILE && forall bn :: lo <= bn < hi ==> Data(f, f.ip.inum, bn) != 0
    ensures Missing(f, lo, hi) == 0
  {
    hide Slot;
    if lo < hi {
      MissingNone(f, lo, hi - 1);
    }
  }

  /** What is still needed after part of a range has been fetched. */
  lemma NeedSplit(f: FileSys, g: FileSys, lo: nat, mid: nat, hi: nat)
    requires Fetched(f, g, lo, mid) && mid <= hi <= MAXFILE
    ensures Need(f, lo, hi) == Need(f, lo, mid) + Need(g, mid, hi)
  {
    hide Slot;
    MissingSplit(f, lo, mid, hi);
    MissingSame(f, g, mid, hi);
  }

  lemma FetchedThen(f: FileSys, g: FileSys, h: FileSys, lo: nat, mid: nat, hi: nat)
    requires Fetched(f, g, lo, mid) && Fetched(g, h, mid, hi)
    ensures Fetched(f, h, lo, hi)
  {
    hide Slot, Bit;
    NeedSplit(f, g, lo, mid, hi);
  }

  /** A range that begins with a block that is there needs what it needs from the next one on. */
  lemma NeedFrom(f: FileSys, lo: nat, hi: nat)
    requires Shape(f) && lo < hi <= MAXFILE && Data(f, f.ip.inum, lo) != 0
    ensures lo + 1 < hi ==> Need(f, lo, hi) == Need(f, lo + 1, hi)
    ensures Need(f, lo, lo + 1) == 0
  {
    hide Bit;
    MissingSplit(f, lo, lo + 1, hi);
    MissingSplit(f, lo, lo, lo + 1);
    assert lo >= NDIRECT ==> f.ip.addrs[NDIRECT] != 0;
  }

  lemma FetchedNothing(f: FileSys, lo: nat)
    requires Shape(f) && lo <= MAXFILE
    ensures Fetched(f, f, lo, lo)
  {
  }

  lemma {:induction false} NeedGrows(f: FileSys, lo: nat, mid: nat, hi: nat)
    requires Shape(f) && mid <= hi <= MAXFILE
    ensures Need(f, lo, mid) <= Need(f, lo, hi)
  {
    hide Slot;
    if lo < mid {
      MissingSplit(f, lo, mid, hi);
    }
  }

  /** What writing n bytes at off needs. */
  function WriteNeed(f: FileSys, off: nat, n: nat): (c: nat)
    requires Shape(f) && (n > 0 ==> off + n <= MAXFILE * BSIZE)
  {
    if n == 0 then 0 else Need(f, off / BSIZE, (off + n - 1) / BSIZE + 1)
  }

  /** One block fetched by bmap. */
  lemma FetchedOne(f: FileSys, fo: Owner, g: FileSys, go: Owner, bn: nat)
    requires Mapped(f, fo, g, go, bn) && Fed(f, g, Need(f, bn, bn + 1))
    requires bn < NDIRECT ==> g.ip.addrs[NDIRECT] == f.ip.addrs[NDIRECT]
    ensures Fetched(f, g, bn, bn + 1)
  {
    hide Bit, Owned, Marked, Filled, DataKept, Missing;
    GrownInv(f, fo, g, go);
    if bn >= NDIRECT && g.ip.addrs[NDIRECT] == 0 {
      NoIndirect(g, bn);
    }
  }

  lemma NoIndirect(f: FileSys, bn: nat)
    requires Shape(f) && f.ip.addrs[NDIRECT] == 0 && NDIRECT <= bn < MAXFILE
    ensures Data(f, f.ip.inum, bn) == 0
  {
  }

  /** Changes that touch neither pointers of the file nor bits. */
  lemma FetchedSame(f: FileSys, g: FileSys, lo: nat)
    requires SameFrame(f, g) && lo <= MAXFILE && g.ip.addrs[NDIRECT] == f.ip.addrs[NDIRECT]
    requires forall s :: 0 <= s < SLOTS ==> Slot(g, f.ip.inum, s) == Slot(f, f.ip.inum, s)
    requires forall x :: 0 <= x < f.sb.size ==> (Bit(g, x) <==> Bit(f, x))
    ensures Fetched(f, g, lo, lo)
  {
    hide Slot, Bit;
    FedNone(f, g);
  }

  // ----- a write in chunks -----

  /** The first i bytes of a write at off have been given their blocks. */
  ghost predicate FetchedSoFar(f0: FileSys, f: FileSys, off: nat, i: nat) {
    && Shape(f0) && Shape(f) && (i == 0 ==> f == f0)
    && (i > 0 ==> off + i <= MAXFILE * BSIZE && Fetched(f0, f, off / BSIZE, (off + i - 1) / BSIZE + 1))
  }

  /** A range whose first block is there already is as well taken from the next block on. */
  lemma FetchedFrom(f: FileSys, g: FileSys, lo: nat, hi: nat)
    requires Fetched(f, g, lo, hi) && lo < hi && Data(f, f.ip.inum, lo) != 0
    ensures Fetched(f, g, lo + 1, hi) && Need(f, lo, hi) == Need(f, lo + 1, hi)
  {
    hide Slot, Bit, Missing;
    NeedFrom(f, lo, hi);
    if lo >= NDIRECT && f.ip.addrs[NDIRECT] == 0 {
      NoIndirect(f, lo);
    }
  }

  lemma FetchedMore(f0: FileSys, f: FileSys, g: FileSys, off: nat, i: nat, n: nat)
    requires FetchedSoFar(f0, f, off, i) && 0 < n && off + i + n <= MAXFILE * BSIZE
    requires Fetched(f, g, (off + i) / BSIZE, (off + i + n - 1) / BSIZE + 1)
    ensures FetchedSoFar(f0, g, off, i + n)
  {
    hide Slot, Bit, Need, Fed;
    if i > 0 {
      var lo, mid, hi := off / BSIZE, (off + i - 1) / BSIZE + 1, (off + i + n - 1) / BSIZE + 1;
      if (off + i) / BSIZE < mid {
        FetchedFrom(f, g, (off + i) / BSIZE, hi);
      }
      FetchedThen(f0, f, g, lo, mid, hi);
    }
  }

  lemma NeedMore(f0: FileSys, f: FileSys, off: nat, i: nat, n: nat)
    requires FetchedSoFar(f0, f, off, i) && (n > 0 ==> off + i + n <= MAXFILE * BSIZE)
    ensures WriteNeed(f0, off, i + n) == WriteNeed(f0, off, i) + WriteNeed(f, off + i, n)
    ensures Left(f) + WriteNeed(f0, off, i) == Left(f0) && (LogClear(f) <==> LogClear(f0))
  {
    hide Slot, Bit, Need, Left, LogClear;
    if i > 0 && n > 0 {
      var lo, mid, hi := off / BSIZE, (off + i - 1) / BSIZE + 1, (off + i + n - 1) / BSIZE + 1;
      NeedSplit(f0, f, lo, mid, hi);
      if (off + i) / BSIZE < mid {
        NeedSkips(f, (off + i) / BSIZE, hi);
      }
    }
  }

  lemma NeedSkips(f: FileSys, lo: nat, hi: nat)
    requires Shape(f) && lo < hi <= MAXFILE && Data(f, f.ip.inum, lo) != 0
    ensures Need(f, lo, hi) == Need(f, lo + 1, hi)
  {
    hide Slot, Missing;
    NeedFrom(f, lo, hi);
  }

  lemma WriteNeedGrows(f: FileSys, off: nat, i: nat, k: nat)
    requires Shape(f) && i <= k && (k > 0 ==> off + k <= MAXFILE * BSIZE)
    ensures WriteNeed(f, off, i) <= WriteNeed(f, off, k)
  {
    hide Slot, Need;
    if i > 0 {
      NeedGrows(f, off / BSIZE, (off + i - 1) / BSIZE + 1, (off + k - 1) / BSIZE + 1);
    }
  }
}
