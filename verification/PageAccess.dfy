/** What the processor lets user code do, by the bits of the entries alone. */
module PageAccess {
  import opened Basics
  import opened PageTables
  import opened PageUses
  import opened PageRanges

  /** Bits 0 and 2, PTE_P and PTE_U, are set in the directory entry and in the table entry for page q. */
  predicate UserReads(m: Vm, d: nat, q: nat)
    requires Shape(m) && d < NFRAMES && q < 1048576
  {
    var e := m.frames[d][q / 1024];
    && e % 2 == 1 && e / 4 % 2 == 1 && e / 4096 < NFRAMES
    && var t := m.frames[e / 4096][q % 1024]; t % 2 == 1 && t / 4 % 2 == 1
  }

  /** And bit 1, PTE_W, in both. */
  predicate UserWrites(m: Vm, d: nat, q: nat)
    requires Shape(m) && d < NFRAMES && q < 1048576
  {
    var e := m.frames[d][q / 1024];
    && UserReads(m, d, q)
    && e / 2 % 2 == 1
    && var t := m.frames[e / 4096][q % 1024]; t / 2 % 2 == 1
  }

  /** User code may read and write the pages that are mapped below KERNBASE, and touch no other. */
  ghost predicate UserSees(m: Vm, d: nat)
    requires Shape(m) && d < NFRAMES
  {
    forall q :: 0 <= q < 1048576 ==>
      && (UserReads(m, d, q) <==> q < 524288 && Mapped(m, d, q))
      && (UserWrites(m, d, q) <==> q < 524288 && Mapped(m, d, q))
  }

  lemma BitsOf(e: Word)
    ensures e % 8 == 7 ==> e % 2 == 1 && e / 2 % 2 == 1 && e / 4 % 2 == 1
    ensures e % 8 < 4 ==> e / 4 % 2 == 0
  {
    var k, r := e / 8, e % 8;
    assert e == 8 * k + r;
    assert e / 2 == 4 * k + r / 2 && e / 4 == 2 * k + r / 4;
  }

  /** It is so in every address space. */
  lemma UserAccess(m: Vm, d: nat)
    requires Inv(m) && Space(m, d)
    ensures Shape(m) && d < NFRAMES && UserSees(m, d)
  {
    hide Chained, Tabled, Paged;
    InvShape(m);
    forall q | 0 <= q < 1048576
      ensures UserReads(m, d, q) <==> q < 524288 && Mapped(m, d, q)
      ensures UserWrites(m, d, q) <==> q < 524288 && Mapped(m, d, q)
    {
      OnePage(m, d, q);
    }
  }

  lemma OnePage(m: Vm, d: nat, q: nat)
    requires Shape(m) && Guarded(m) && Space(m, d) && d < NFRAMES && q < 1048576
    ensures UserReads(m, d, q) <==> q < 524288 && Mapped(m, d, q)
    ensures UserWrites(m, d, q) <==> q < 524288 && Mapped(m, d, q)
  {
    var e, t := Pde(m, d, q / ENTRIES), Pte(m, d, q);
    assert EntryOk(t, q) && (Present(e) ==> e % 8 == 7);
    BitsOf(e);
    BitsOf(t);
    hide Guarded;
  }

  /** The kernel's part, by virtual address: physical memory up to 0xE000000 from KERNBASE on, with the
      kernel's text, from 0x100000 up to its data, not writable; and the devices where they are. */
  lemma KernelAccess(data: nat, q: nat)
    requires 256 < data < NFRAMES && q < 1048576
    ensures var e, a := KernelPte(data, q), q * 4096;
            && (Present(e) <==> 0x8000_0000 <= a < 0x8E00_0000 || a >= 0xFE00_0000)
            && (Present(e) ==> e / 4096 * 4096 == if a < 0xFE00_0000 then a - 0x8000_0000 else a)
            && (Present(e) ==> (e / 2 % 2 == 1 <==> !(0x8010_0000 <= a < 0x8000_0000 + data * 4096)))
            && e / 4 % 2 == 0
  {
    var e := KernelPte(data, q);
    if q < 524288 {
    } else if q < 524288 + 57344 {
      KernelBits(q - USERPAGES, if q < USERPAGES + 256 || q >= USERPAGES + data then PERM_W else 0);
    } else if q >= 1040384 {
      KernelBits(q, PERM_W);
    }
    hide Entry;
  }

  lemma KernelBits(f: nat, perm: nat)
    requires f < ALLPAGES && (perm == 0 || perm == PERM_W)
    ensures var e := Entry(f, perm);
            e % 2 == 1 && e / 4096 == f && e / 4 % 2 == 0 && (e / 2 % 2 == 1 <==> perm == PERM_W)
  {
    EntryBits(f, perm);
    var e := Entry(f, perm);
    BitsOf(e);
    hide Entry;
    assert e == 8 * (e / 8) + e % 8;
    assert e / 2 == 4 * (e / 8) + e % 8 / 2;
  }
}
