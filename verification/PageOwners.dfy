/** What the invariant of page tables means for frames, in terms of the entries alone. */
module PageOwners {
  import opened PageTables
  import opened PageSteps
  import opened PageUses
  import opened PageFreeing
  import opened SpaceFreeing
  import opened PageRanges
  import opened Paging
  import opened Basics

  /** A user page's frame has no other entry, is not free, and is no directory or table. */
  lemma OneOwner(m: Vm, d: nat, p: nat, e: nat, q: nat)
    requires Inv(m) && Space(m, d) && Space(m, e) && p < USERPAGES && q < USERPAGES && Mapped(m, d, p)
    ensures Mapped(m, e, q) && FrameOf(Pte(m, e, q)) == FrameOf(Pte(m, d, p)) ==> d == e && p == q
    ensures FrameOf(Pte(m, d, p)) !in m.free && !Space(m, FrameOf(Pte(m, d, p)))
    ensures forall i: nat :: i < ENTRIES && Present(Pde(m, e, i)) ==> FrameOf(Pde(m, e, i)) != FrameOf(Pte(m, d, p))
    ensures m.first <= FrameOf(Pte(m, d, p)) < NFRAMES
  {
    hide Chained, Guarded;
    assert m.role[FrameOf(Pte(m, d, p))] == User(d, p);
    if Mapped(m, e, q) {
      assert m.role[FrameOf(Pte(m, e, q))] == User(e, q);
    }
  }

  /** Each table has one entry in one directory, and neither it nor the directory is free. */
  lemma OneDirectory(m: Vm, d: nat, i: nat, e: nat, j: nat)
    requires Inv(m) && Space(m, d) && Space(m, e) && i < ENTRIES && j < ENTRIES && Present(Pde(m, d, i))
    ensures Present(Pde(m, e, j)) && FrameOf(Pde(m, e, j)) == FrameOf(Pde(m, d, i)) ==> d == e && i == j
    ensures FrameOf(Pde(m, d, i)) !in m.free && !Space(m, FrameOf(Pde(m, d, i))) && d !in m.free
  {
    hide Chained, Paged, Guarded;
    assert m.role[FrameOf(Pde(m, d, i))] == Table(d, i);
    if Present(Pde(m, e, j)) {
      assert m.role[FrameOf(Pde(m, e, j))] == Table(e, j);
    }
  }

  /** The free list holds each frame once. */
  lemma FreeOnce(m: Vm, i: nat, j: nat)
    requires Inv(m) && i < |m.free| && j < |m.free| && m.free[i] == m.free[j]
    ensures i == j
  {
  }

  // ----- a page that deallocuvm passes over -----

  /** deallocuvm down to the first page does not see page 1024 if there is no table for the first 4 MB. */
  lemma StrideMisses(m: Vm, n: Vm, d: nat)
    requires Inv(m) && Space(m, d) && d < NFRAMES && !HasTable(m, d, 1) && Mapped(m, d, 1024)
    requires Freed(m, n, d, 1, 2048)
    ensures Mapped(n, d, 1024)
  {
    StrideSkips(m, d);
    hide Inv, Freed, Skipped, HasTable, Mapped;
    DeallocExact(m, n, d, 1, 2048, 1024);
  }

  /** Such a space is made by the operations of vm.c: a new one, and mappages for page 1024. */
  method SpaceWithHole() returns (mem: Memory, d: nat)
    ensures fresh(mem) && Inv(mem.State()) && Space(mem.State(), d) && d < NFRAMES
    ensures !HasTable(mem.State(), d, 1) && Mapped(mem.State(), d, 1024)
  {
    hide Inv, Pte, HasTable, Mapped, MadeSpace, Untouched, Popped, PageMapped;
    mem := new Memory(1000, 300, seq(NFRAMES, _ => ZeroPage()));
    mem.Freerange(Ptr(1000), Ptr(1100));
    ghost var s := mem.State();
    HundredFree(s);
    var pd := mem.Setupkvm();
    d := (pd - KERNBASE) / PGSIZE;
    ghost var m := mem.State();
    MadeTakes(s, m, d, 300);
    MadeIs(s, m, d, 300);
    InvShape(m);
    HoleMade(m, d);
    var page := mem.Kalloc();
    assert page == Ptr(m.free[0]);
    var out, k := mem.Mappages(d, 1024 * PGSIZE, PGSIZE, page - KERNBASE, PERM_WU);
  }

  /** And then deallocuvm, asked for everything from byte 4096 to 8 MB, leaves that page mapped. */
  method FreeAboveFirstPage(mem: Memory, d: nat)
    requires Inv(mem.State()) && Space(mem.State(), d) && d < NFRAMES
    requires !HasTable(mem.State(), d, 1) && Mapped(mem.State(), d, 1024)
    modifies mem
    ensures Inv(mem.State()) && Space(mem.State(), d) && Mapped(mem.State(), d, 1024)
  {
    hide Inv, HasTable, Mapped, Freed;
    ghost var m := mem.State();
    var size := mem.Deallocuvm(d, 2048 * PGSIZE, PGSIZE);
    StrideMisses(m, mem.State(), d);
    FreedInv(m, mem.State(), d, 1, 2048);
  }

  lemma HundredFree(m: Vm)
    requires forall f: nat :: 1000 <= f < 1100 ==> f in m.free
    ensures |m.free| >= 100
  {
    var frames := seq(100, i requires 0 <= i < 100 => 1000 + i as nat);
    SizeOfDistinct(frames);
    SizeAtMost(m.free);
    SubsetSize(Elements(frames), Elements(m.free));
  }

  lemma MadeIs(m: Vm, n: Vm, d: nat, data: nat)
    requires Inv(m) && Inv(n) && MadeSpace(m, n, d, data)
    ensures Space(n, d)
  {
  }

  lemma HoleMade(m: Vm, d: nat)
    requires Inv(m) && Space(m, d) && d < NFRAMES && |m.free| >= 2
    requires forall q :: 0 <= q < USERPAGES ==> !HasTable(m, d, q)
    ensures m.free[0] < NFRAMES && Inv(Popped(m)) && Space(Popped(m), d)
    ensures Popped(m).free != [] && m.free[0] in Popped(m).role && Popped(m).role[m.free[0]] == Loose
    ensures !Mapped(Popped(m), d, 1024)
    ensures var n := PageMapped(Popped(m), d, 1024, m.free[0], PERM_WU);
            Shape(n) && !HasTable(n, d, 1) && Mapped(n, d, 1024)
  {
    var b, f := Popped(m), m.free[0];
    PoppedInv(m);
    InvShape(m);
    InvShape(b);
    MappedIff(b, d, 1024);
    PteIs(b, d, 1024);
    hide Inv, Mapped, Pte, PageMapped, Belongs, Accounted, UntouchedBut;
    UserPageMapped(b, d, 1024, f, PERM_WU);
    InvShape(PageMapped(b, d, 1024, f, PERM_WU));
    MappedIff(PageMapped(b, d, 1024, f, PERM_WU), d, 1024);
  }

  lemma StrideSkips(m: Vm, d: nat)
    requires Shape(m) && d < NFRAMES && !HasTable(m, d, 1)
    ensures Skipped(m, d, 1, 1024)
  {
    assert !TableAt(m, d, 0);
  }

  /** After freevm no frame of the space is anybody's, and every other space is as it was. */
  lemma FreedForGood(m: Vm, n: Vm, d: nat, e: nat, p: nat)
    requires Inv(m) && Inv(n) && Space(m, d) && SpaceFreed(m, n, d) && Space(m, e) && e != d && p < ALLPAGES
    ensures !Space(n, d) && d in n.free
    ensures Space(n, e) && Pte(n, e, p) == Pte(m, e, p)
  {
    assert Belongs(m, d, d);
    FreedKept(m, n, d);
    SpaceKept(m, n, d, e, p);
  }
}
