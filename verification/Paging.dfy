/** kalloc.c and vm.c: the free list, page tables and address spaces, in place. */
module Paging {
  import opened Basics
  import opened PageTables
  import opened PageSteps
  import opened PageUses
  import opened PageRanges
  import opened PageAccess
  import opened PageFreeing
  import opened SpaceFreeing
  import opened PageGrowing
  import opened SpaceCopying

  datatype Ram = Ram(frames: seq<Page>, freelist: Word)

  datatype Use = Use(free: seq<nat>, role: map<nat, Role>)

  /** How mappages ends: 0, -1, or a panic. */
  datatype MapEnd = Done | NoMemory | Remap

  /** How a round of copyuvm ends. */
  datatype Copied = Good | Missing | NoFrame | NoTable

  lemma NoUserPages(m: Vm, n: Vm, d: nat, data: nat)
    requires Inv(m) && Inv(n) && MadeSpace(m, n, d, data)
    ensures Shape(n) && d < NFRAMES && forall q :: 0 <= q < ALLPAGES ==> !UserReads(n, d, q)
  {
    UserAccess(n, d);
    forall q | 0 <= q < ALLPAGES ensures !UserReads(n, d, q) {
      MappedIff(n, d, q);
    }
    hide Inv, UserReads, Pte, Mapped;
  }

  lemma GrownSeen(m: Vm, n: Vm, d: nat, lo: nat, hi: nat)
    requires Shape(m) && Shape(n) && d < NFRAMES && lo <= hi <= USERPAGES && UserSees(n, d)
    ensures GrownTo(m, n, d, lo, hi) ==> forall q :: lo <= q < hi ==> UserWrites(n, d, q)
  {
    if GrownTo(m, n, d, lo, hi) {
      forall q | lo <= q < hi ensures UserWrites(n, d, q) {
        assert NewPage(m, n, d, q);
      }
    }
    hide UserWrites, UserReads, Pte;
  }

  lemma CopySeen(m: Vm, n: Vm, d: nat, c: nat, p: nat, data: nat)
    requires Shape(m) && Inv(n) && d < NFRAMES && p <= USERPAGES && Space(n, c)
    requires Shape(n) && CopiedTo(m, n, d, c, p, data)
    ensures c < NFRAMES && forall q :: 0 <= q < ALLPAGES ==>
              (UserWrites(n, c, q) <==> q < p) && (UserReads(n, c, q) <==> q < p)
  {
    UserAccess(n, c);
    forall q | 0 <= q < ALLPAGES ensures (UserWrites(n, c, q) <==> q < p) && (UserReads(n, c, q) <==> q < p) {
      MappedIff(n, c, q);
      if q < p {
        assert CopyOf(m, n, d, c, q);
      }
    }
    hide Inv, UserWrites, UserReads, Pte, Mapped;
  }

  class Memory {
    var ram: Ram
    const first: nat       // the first page after end
    const data: nat        // the page where kernel data starts
    ghost var use: Use

    ghost function State(): Vm
      reads this
    {
      Vm(ram.frames, ram.freelist, use.free, use.role, first)
    }

    constructor (first: nat, data: nat, frames: seq<Page>)
      requires 0 < first <= NFRAMES && 256 < data <= first && |frames| == NFRAMES
      ensures Inv(State()) && State() == Vm(frames, 0, [], map[], first) && this.first == first && this.data == data
    {
      this.first := first;
      this.data := data;
      ram := Ram(frames, 0);
      use := Use([], map[]);
    }

    // ----- kalloc.c -----

    method Kalloc() returns (p: Word)
      requires Inv(State())
      modifies this
      ensures Inv(State())
      ensures old(State()).free == [] ==> p == 0 && State() == old(State())
      ensures old(State()).free != [] ==>
                p == Ptr(old(State()).free[0]) && State() == Popped(old(State()))
    {
      hide Tabled, Paged, Guarded, Disjoint;
      ghost var m := State();
      p := ram.freelist;
      if p != 0 {
        assert m.frames[m.free[0]][0] == Link(m.free, 0);
        ram := ram.(freelist := ram.frames[(p - KERNBASE) / PGSIZE][0]);
        use := Use(use.free[1..], use.role[use.free[0] := Loose]);
        PoppedInv(m);
      }
    }

    /** Any frame may be passed to kfree; whether that was right is up to the caller. */
    method Kfree(v: Word) returns (panicked: bool)
      requires Shape(State())
      modifies this
      ensures panicked <==> v % PGSIZE != 0 || v < Ptr(first) || v >= Ptr(NFRAMES)
      ensures panicked ==> State() == old(State())
      ensures !panicked ==> State() == Pushed(old(State()), (v - KERNBASE) / PGSIZE)
      ensures !panicked ==>
                var page := ram.frames[(v - 0x8000_0000) / 4096];
                ram.freelist == v && page[0] == old(ram.freelist) && forall k :: 1 <= k < 1024 ==> page[k] == 0x01010101
    {
      panicked := v % PGSIZE != 0 || v < Ptr(first) || v >= Ptr(NFRAMES);
      if !panicked {
        ghost var m := State();
        var f := (v - KERNBASE) / PGSIZE;
        ram := ram.(frames := ram.frames[f := seq(ENTRIES, _ => 0x01010101)]);
        ram := ram.(frames := ram.frames[f := ram.frames[f][0 := ram.freelist]]);
        ram := ram.(freelist := v);
        use := Use([f] + use.free, use.role - {f});
        assert ram.frames == Pushed(m, f).frames;
      }
    }

    /** Puts all whole pages from vstart up to vend on the list, last page first. */
    method Freerange(vstart: Word, vend: Word)
      requires Inv(State())
      requires first <= PageUp(vstart) && vend <= Ptr(NFRAMES)
      requires forall f :: f in use.role || f in use.free ==> !(PageUp(vstart) <= f < PageDown(vend))
      modifies this
      ensures Inv(State()) && use.role == old(use.role)
      ensures forall f: nat :: f in use.free <==>
                f in old(use.free) || vstart <= 0x8000_0000 + 4096 * f <= 0x8000_0000 + 4096 * f + 4096 <= vend
    {
      hide Inv, Pushed;
      InvShape(State());
      ghost var f := PageUp(vstart);
      var p := (vstart + PGSIZE - 1) / PGSIZE * PGSIZE;
      assert p == Ptr(f);
      while p + PGSIZE <= vend
        invariant Inv(State()) && use.role == old(use.role)
        invariant PageUp(vstart) <= f && p == Ptr(f)
        invariant f <= PageDown(vend) || f == PageUp(vstart)
        invariant forall g: nat :: g in use.free <==> g in old(use.free) || PageUp(vstart) <= g < f
        decreases vend - p
      {
        assert f < PageDown(vend) <= NFRAMES;
        ghost var m := State();
        LooseFreed(m, f);
        InvShape(m);
        use := use.(role := use.role[f := Loose]);
        FreeOne(p, f);
        assert use.free == [f] + m.free;
        f := f + 1;
        p := p + PGSIZE;
      }
    }

    method FreeOne(v: Word, ghost f: nat)
      requires Shape(State()) && first <= f < NFRAMES && v == Ptr(f)
      modifies this
      ensures State() == Pushed(old(State()), f)
    {
      var panicked := Kfree(v);
    }

    // ----- walkpgdir, mappages -----

    /** The table for va, made if alloc is set and there is none. */
    method Walkpgdir(d: nat, va: Word, alloc: bool) returns (ok: bool, table: nat)
      requires Inv(State()) && Space(State(), d)
      modifies this
      ensures Inv(State())
      ensures ok <==> HasTable(old(State()), d, va / PGSIZE) || (alloc && old(State()).free != [])
      ensures !ok ==> State() == old(State())
      ensures ok ==>
                && State() == Walked(old(State()), d, va / PGSIZE) && HasTable(State(), d, va / PGSIZE)
                && table == FrameOf(Pde(State(), d, va / PGSIZE / ENTRIES))
    {
      hide Inv, HasTable, Chained, Tabled, Paged, Guarded, Disjoint;
      ghost var m := State();
      InvShape(m);
      assert va / (PGSIZE * ENTRIES) == va / PGSIZE / ENTRIES;
      var i := va / (PGSIZE * ENTRIES);
      PresentTable(m, d, va / PGSIZE);
      if Present(ram.frames[d][i]) {
        ok, table := true, FrameOf(ram.frames[d][i]);
      } else if !alloc {
        ok, table := false, 0;
      } else {
        var p := Kalloc();
        if p == 0 {
          ok, table := false, 0;
        } else {
          TableAddedIs(m, d, va / PGSIZE);
          var t := (p - KERNBASE) / PGSIZE;
          ram := ram.(frames := ram.frames[t := ZeroPage()]);
          ram := ram.(frames := ram.frames[d := ram.frames[d][i := Entry(t, PERM_WU)]]);
          use := use.(role := use.role[t := Table(d, i)]);
          ok, table := true, t;
        }
      }
    }

    /** Maps pages one at a time until done, out of frames for a table, or a page is mapped already.
        A user page gets a loose frame; the kernel part is mapped in runs of any length. */
    method Mappages(d: nat, va: Word, size: nat, pa: Word, perm: nat) returns (out: MapEnd, ghost k: nat)
      requires Inv(State()) && Space(State(), d)
      requires 0 < size && va + size <= ALLPAGES * PGSIZE && pa % PGSIZE == 0
      requires pa / PGSIZE + Pages(va, size) <= ALLPAGES && perm < PGSIZE - 1 && perm % 2 == 0
      requires va < KERNBASE ==>
                 Pages(va, size) == 1 && perm == PERM_WU && pa / PGSIZE in use.role && use.role[pa / PGSIZE] == Loose
      requires va >= KERNBASE ==> perm % 8 < 4
      modifies this
      ensures Inv(State()) && Space(State(), d) && k <= Pages(va, size)
      ensures out.Done? <==> k == Pages(va, size)
      ensures out.Remap? ==> Mapped(State(), d, va / PGSIZE + k)
      ensures out.NoMemory? ==> !HasTable(State(), d, va / PGSIZE + k) && State().free == []
      ensures va < KERNBASE && k == 0 ==> State() == old(State())
      ensures va < KERNBASE && k == 1 ==>
                && !Mapped(old(State()), d, va / PGSIZE)
                && (HasTable(old(State()), d, va / PGSIZE) || old(State()).free != [])
                && State() == PageMapped(old(State()), d, va / PGSIZE, pa / PGSIZE, perm)
      ensures va >= KERNBASE ==>
                KernelRange(old(State()), State(), d, va / PGSIZE, k, pa / PGSIZE, perm)
    {
      hide Inv, HasTable, Chained, Tabled, Paged, Guarded, Disjoint, PageMapped, Pte, Mapped, KernelRange;
      ghost var m := State();
      ghost var p, f := va / PGSIZE, pa / PGSIZE;
      KernelRangeNone(m, d, p, f, perm);
      var a := va / PGSIZE * PGSIZE;
      var last := (va + size - 1) / PGSIZE * PGSIZE;
      var to := pa;
      k := 0;
      while true
        invariant Inv(State()) && Space(State(), d) && k < Pages(va, size)
        invariant a == (p + k) * PGSIZE && to == (f + k) * PGSIZE && a <= last
        invariant va < KERNBASE ==> k == 0 && State() == m
        invariant va >= KERNBASE ==> KernelRange(m, State(), d, p, k, f, perm)
        decreases last - a
      {
        ghost var b := State();
        assert a / PGSIZE == p + k && to / PGSIZE == f + k;
        out := MapPage(d, a, to, perm);
        if !out.Done? {
          return;
        }
        if va >= KERNBASE {
          KernelRangeNext(m, b, d, p, k, f, perm);
        }
        k := k + 1;
        if a == last {
          break;
        }
        a, to := a + PGSIZE, to + PGSIZE;
      }
      if va >= KERNBASE {
        KernelRangeIs(m, State(), d, p, k, f, perm);
      }
    }

    /** One round of the loop of mappages. */
    method MapPage(d: nat, a: Word, to: Word, perm: nat) returns (out: MapEnd)
      requires Inv(State()) && Space(State(), d) && a % PGSIZE == 0 && to % PGSIZE == 0
      requires perm < PGSIZE - 1 && perm % 2 == 0 && (a < KERNBASE || perm % 8 < 4)
      requires a < KERNBASE ==> perm == PERM_WU && to / PGSIZE in use.role && use.role[to / PGSIZE] == Loose
      modifies this
      ensures Inv(State()) && Space(State(), d)
      ensures out.NoMemory? <==> !HasTable(old(State()), d, a / PGSIZE) && old(State()).free == []
      ensures out.Remap? <==> Mapped(old(State()), d, a / PGSIZE)
      ensures !out.Done? ==> State() == old(State())
      ensures out.Done? ==>
                (a < KERNBASE ==> to / PGSIZE < NFRAMES) &&
                State() == PageMapped(old(State()), d, a / PGSIZE, to / PGSIZE, perm)
    {
      hide Inv, HasTable, Chained, Tabled, Paged, Guarded, Disjoint, Pte, Mapped;
      ghost var m := State();
      var ok, table := Walkpgdir(d, a, true);
      if !ok {
        InvShape(m);
        PteIs(m, d, a / PGSIZE);
        MappedIff(m, d, a / PGSIZE);
        return NoMemory;
      }
      ghost var w := State();
      InvShape(w);
      InvShape(m);
      PteIs(w, d, a / PGSIZE);
      PteIs(m, d, a / PGSIZE);
      MappedIff(m, d, a / PGSIZE);
      if Present(ram.frames[table][a / PGSIZE % ENTRIES]) {
        return Remap;
      }
      ram := ram.(frames := ram.frames[table := ram.frames[table][a / PGSIZE % ENTRIES := to + perm + 1]]);
      if a < KERNBASE {
        use := use.(role := use.role[to / PGSIZE := User(d, a / PGSIZE)]);
      }
      out := Done;
      PageMappedInv(m, d, a / PGSIZE, to / PGSIZE, perm);
    }

    /** A new directory with the kernel's mappings and nothing else, or 0, which it is exactly when fewer
        than KERNELFRAMES frames are free; they are then all taken and lost. */
    method Setupkvm() returns (pd: Word)
      requires Inv(State()) && 256 < data < NFRAMES
      modifies this
      ensures Inv(State())
      ensures pd != 0 <==> |old(use.free)| >= KERNELFRAMES
      ensures pd == 0 ==>
                && use.free == []
                && forall x :: x in old(use.role) ==>
                     x in use.role && use.role[x] == old(use.role)[x] &&
                     x < NFRAMES && ram.frames[x] == old(ram.frames)[x]
      ensures pd != 0 ==>
                && old(use.free) != [] && pd == Ptr(old(use.free)[0])
                && MadeSpace(old(State()), State(), old(use.free)[0], data)
                && forall q :: 0 <= q < ALLPAGES ==> !UserReads(State(), old(use.free)[0], q)
    {
      hide Inv, HasTable, Chained, Tabled, Paged, Guarded, Disjoint, Pte, Mapped, PartSpace, Untouched, UserReads;
      ghost var m := State();
      InvShape(m);
      pd := NewDirectory();
      if pd == 0 {
        return;
      }
      var d := (pd - KERNBASE) / PGSIZE;
      var j := 0;
      while j < 4
        invariant Inv(State()) && j <= 4
        invariant Space(State(), d) && d !in m.role
        invariant PartSpace(m, State(), d, data, PartStart(data, j))
      {
        var ok := MapKernel(d, j, m);
        if !ok {
          SpaceDropped(m, State(), d);
          return 0;
        }
        j := j + 1;
      }
      MadeTakes(m, State(), d, data);
      NoUserPages(m, State(), d, data);
    }

    /** The call of mappages for entry j of kmap. */
    method MapKernel(d: nat, j: nat, ghost m: Vm) returns (ok: bool)
      requires Inv(State()) && Space(State(), d) && j < 4 && 256 < data < NFRAMES
      requires Inv(m) && PartSpace(m, State(), d, data, PartStart(data, j))
      modifies this
      ensures Inv(State()) && Space(State(), d)
      ensures ok ==> PartSpace(m, State(), d, data, PartStart(data, j + 1))
      ensures !ok ==> use.free == [] && |m.free| < KERNELFRAMES
      ensures !ok ==> Shape(m) && Shape(State()) && Untouched(m, State(), d)
    {
      hide Inv, HasTable, Chained, Tabled, Paged, Guarded, Disjoint, Pte, Mapped, KernelRange, PartSpace, Untouched,
        Accounted, Belongs, KernelPte, Entry, Stretch;
      var (virt, start, end, perm) := Kmap(data, j);
      ghost var b := State();
      KmapIs(data, j);
      var out, k := Mappages(d, virt, (end - start) % (ALLPAGES * PGSIZE), start, perm);
      InvShape(m);
      InvShape(State());
      KernelPart(m, b, State(), d, data, virt / PGSIZE, k, start / PGSIZE, perm,
                 Pages(virt, (end - start) % (ALLPAGES * PGSIZE)), PartStart(data, j + 1));
      ok := out.Done?;
    }

    // ----- deallocuvm, freevm -----

    /** Frees the user pages from newsz up to oldsz that its walk meets. */
    method Deallocuvm(d: nat, oldsz: Word, newsz: Word) returns (size: Word)
      requires Inv(State()) && Space(State(), d) && oldsz <= KERNBASE
      modifies this
      ensures size == if newsz >= oldsz then oldsz else newsz
      ensures newsz >= oldsz ==> State() == old(State())
      ensures newsz < oldsz ==> Freed(old(State()), State(), d, Up(newsz), Up(oldsz))
    {
      hide Inv, HasTable, Freed, WalkAt, Skipped, Pte, Mapped;
      if newsz >= oldsz {
        return oldsz;
      }
      ghost var m := State();
      ghost var lo, hi := Up(newsz), Up(oldsz);
      InvShape(m);
      FreedNone(m, d, lo);
      WalkStarts(m, d, lo);
      var a := (newsz + PGSIZE - 1) / PGSIZE * PGSIZE;
      while a < oldsz
        invariant a % PGSIZE == 0 && lo <= a / PGSIZE && d < NFRAMES
        invariant WalkAt(m, d, lo, a / PGSIZE)
        invariant Freed(m, State(), d, lo, if a / PGSIZE < hi then a / PGSIZE else hi)
        decreases oldsz - a
      {
        ghost var p, n := a / PGSIZE, State();
        FreedIs(m, n, d, lo, p);
        WalkNext(m, d, lo, p);
        var ok, table := Walkpgdir(d, a, false);
        if !ok {
          NothingMapped(m, d);
          FreedOver(m, n, d, lo, p, if p + ENTRIES < hi then p + ENTRIES else hi);
          a := a + (ENTRIES - 1) * PGSIZE;
        } else {
          FreeUserPage(d, a, table);
          FreedOn(m, n, State(), d, lo, p);
        }
        a := a + PGSIZE;
      }
      size := newsz;
    }

    /** The page at a, if there is one, goes back to the free list; kfree has nothing to object to. */
    method FreeUserPage(d: nat, a: Word, table: nat)
      requires Inv(State()) && Space(State(), d) && a < KERNBASE
      requires HasTable(State(), d, a / PGSIZE) && table == FrameOf(Pde(State(), d, a / PGSIZE / ENTRIES))
      modifies this
      ensures Shape(old(State())) && d < NFRAMES
      ensures !Mapped(old(State()), d, a / PGSIZE) ==> State() == old(State())
      ensures Mapped(old(State()), d, a / PGSIZE) ==>
                && FrameOf(Pte(old(State()), d, a / PGSIZE)) < NFRAMES
                && State() == Pushed(Unmapped(old(State()), d, a / PGSIZE), FrameOf(Pte(old(State()), d, a / PGSIZE)))
    {
      hide Inv, HasTable, Pte, Mapped, Pushed, Unmapped;
      ghost var m := State();
      ghost var p := a / PGSIZE;
      InvShape(m);
      PteIs(m, d, p);
      MappedIff(m, d, p);
      var e := ram.frames[table][a / PGSIZE % ENTRIES];
      if Present(e) {
        PageFreed(m, d, p);
        var pa := e / PGSIZE * PGSIZE;
        assert pa != 0;
        FreeOne(pa + KERNBASE, pa / PGSIZE);
        ram := ram.(frames := ram.frames[table := ram.frames[table][a / PGSIZE % ENTRIES := 0]]);
      }
    }

    /** Gives every frame of the address space back. */
    method Freevm(d: nat)
      requires Inv(State()) && Space(State(), d)
      modifies this
      ensures Inv(State()) && SpaceFreed(old(State()), State(), d)
    {
      hide Inv, Freed, TablesFreed, SpaceFreed;
      ghost var m := State();
      var size := Deallocuvm(d, KERNBASE, 0);
      ghost var n := State();
      SpaceGivenUp(m, n, d);
      use := use.(role := Abandoned(n, d).role);
      InvShape(n);
      var i := 0;
      while i < ENTRIES
        invariant i <= ENTRIES && Inv(State()) && Shape(State()) && TablesFreed(n, State(), d, i)
      {
        InvShape(State());
        TablesFreedNext(n, State(), d, i);
        if Present(ram.frames[d][i]) {
          FreeOne(FrameOf(ram.frames[d][i]) * PGSIZE + KERNBASE, FrameOf(ram.frames[d][i]));
          InvShape(State());
        }
        i := i + 1;
      }
      SpaceGone(m, n, State(), d);
      InvShape(State());
      FreeOne(d * PGSIZE + KERNBASE, d);
    }

    /** The first lines of setupkvm. */
    method NewDirectory() returns (pd: Word)
      requires Inv(State())
      modifies this
      ensures Inv(State())
      ensures pd == 0 ==> State() == old(State()) && Shape(State()) && use.free == []
      ensures pd != 0 ==>
                && old(use.free) != [] && pd == Ptr(old(use.free)[0])
                && Space(State(), old(use.free)[0]) && old(use.free)[0] !in old(use.role)
                && PartSpace(old(State()), State(), old(use.free)[0], data, USERPAGES)
    {
      hide Inv, HasTable, Chained, Tabled, Paged, Guarded, Disjoint, Pte, Mapped, PartSpace, Belongs, KernelPte;
      ghost var m := State();
      InvShape(m);
      pd := Kalloc();
      if pd != 0 {
        var d := (pd - KERNBASE) / PGSIZE;
        assert d == m.free[0] && m.free[0] in m.free;
        ram := ram.(frames := ram.frames[d := ZeroPage()]);
        use := use.(role := use.role[d := Dir]);
        SpaceStarted(m, data);
      }
    }

    // ----- allocuvm -----

    /** Maps zeroed pages from oldsz up to newsz. It ignores what mappages answers, so when the
        last frame goes to the last page and there is none for its table, it reports success with
        that page unmapped; short of frames in any other way, it undoes what it did. It panics when
        it gets to a page that is mapped already. */
    method Allocuvm(d: nat, oldsz: Word, newsz: Word) returns (size: Word, panicked: bool)
      requires Inv(State()) && Space(State(), d) && d < NFRAMES
      modifies this
      ensures newsz >= KERNBASE ==> size == 0 && State() == old(State())
      ensures newsz < oldsz ==> size == (if newsz >= KERNBASE then 0 else oldsz) && State() == old(State())
      ensures panicked <==>
                && oldsz <= newsz < KERNBASE
                && exists r :: FirstMapped(old(State()), d, Up(oldsz), Up(newsz), r)
                               && |old(State()).free| > Cost(old(State()), d, Up(oldsz), r)
      ensures !panicked ==>
                && Inv(State()) && Space(State(), d) && KeptBut(old(State()), State(), d)
                && forall q :: 0 <= q < USERPAGES && !(Up(oldsz) <= q < Up(newsz)) ==>
                     Pte(State(), d, q) == Pte(old(State()), d, q)
      ensures oldsz <= newsz < KERNBASE && Clear(old(State()), d, Up(oldsz), Up(newsz)) ==>
                var m, n, lo, hi := old(State()), State(), Up(oldsz), Up(newsz);
                && Untouched(m, n, d)
                && if |m.free| >= Cost(m, d, lo, hi) then size == newsz && GrownTo(m, n, d, lo, hi)
                   else if |m.free| == Cost(m, d, lo, hi) - 1 && NewTable(m, d, lo, hi - 1)
                   then size == newsz && Stuck(m, n, d, lo, hi)
                   else size == 0 && Clear(n, d, lo, hi)
      ensures !panicked ==> UserSees(State(), d)
      ensures oldsz <= newsz < KERNBASE && Clear(old(State()), d, Up(oldsz), Up(newsz))
              && |old(State()).free| >= Cost(old(State()), d, Up(oldsz), Up(newsz)) ==>
                forall q :: Up(oldsz) <= q < Up(newsz) ==> UserWrites(State(), d, q)
      ensures oldsz <= newsz < KERNBASE && !Clear(old(State()), d, Up(oldsz), Up(newsz)) && !panicked ==>
                var m, n, lo := old(State()), State(), Up(oldsz);
                && size == 0
                && forall q :: lo <= q < Up(newsz) ==>
                     (Mapped(n, d, q) <==> NothingAdded(m, d, lo) && Mapped(m, d, q) && Skipped(m, d, lo, q))
    {
      hide Inv, HasTable, Pte, Mapped, Grown, GrownTo, Stuck, Cost, NewTable, Untouched, Freed, Filled, Growing,
        Clear, KeptBut, Skipped, NothingAdded, UserSees, UserWrites;
      panicked := false;
      ghost var m := State();
      ghost var lo, hi := Up(oldsz), Up(newsz);
      InvShape(m);
      UserAccess(m, d);
      KeptSame(m, d);
      if newsz >= KERNBASE {
        return 0, false;
      }
      if newsz < oldsz {
        return oldsz, false;
      }
      GrowingStart(m, d, lo);
      var a := (oldsz + PGSIZE - 1) / PGSIZE * PGSIZE;
      ghost var stuck := false;
      while a < newsz
        invariant Inv(State()) && Shape(State()) && Space(State(), d) && Untouched(m, State(), d)
        invariant a % PGSIZE == 0 && lo <= a / PGSIZE <= hi
        invariant Growing(m, State(), d, lo, a / PGSIZE, stuck)
        decreases newsz - a
      {
        ghost var p, b := a / PGSIZE, State();
        GrowingAt(m, b, d, lo, p, stuck);
        var got, remap := GrowPage(d, a);
        if !got {
          size := Deallocuvm(d, newsz, oldsz);
          GaveUp(m, b, State(), d, lo, hi, p, stuck);
          UserAccess(State(), d);
          return 0, false;
        }
        if remap {
          MetMapped(m, b, d, lo, hi, p, stuck);
          return 0, true;
        }
        GrowingNext(m, b, State(), d, lo, p);
        stuck := !HasTable(b, d, p) && |b.free| == 1;
        a := a + PGSIZE;
      }
      GrowingEnd(m, State(), d, lo, hi, stuck);
      UntouchedKept(m, State(), d);
      NoneMapped(m, d, lo, hi);
      UserAccess(State(), d);
      GrownSeen(m, State(), d, lo, hi);
      size := newsz;
    }

    /** One round of that loop: whether kalloc gives a page, and whether mappages panics. What it
        answers is dropped. */
    method GrowPage(d: nat, a: Word) returns (got: bool, remap: bool)
      requires Inv(State()) && Space(State(), d) && a % PGSIZE == 0 && a < KERNBASE && d < NFRAMES
      modifies this
      ensures Inv(State())
      ensures got <==> old(State()).free != []
      ensures !got ==> State() == old(State())
      ensures remap <==> got && Mapped(old(State()), d, a / PGSIZE)
      ensures got && !remap ==>
                if HasTable(old(State()), d, a / PGSIZE) || |old(State()).free| > 1
                then State() == Grown(old(State()), d, a / PGSIZE, ZeroPage())
                else old(State()).free[0] < NFRAMES && State() == Filled(old(State()), ZeroPage())
    {
      hide Inv, HasTable, Pte, Mapped, PageMapped;
      ghost var b := State();
      InvShape(b);
      var mem := Kalloc();
      got, remap := mem != 0, false;
      if got {
        FilledInv(b, d, ZeroPage());
        var f := (mem - KERNBASE) / PGSIZE;
        assert f == b.free[0];
        ram := ram.(frames := ram.frames[f := ZeroPage()]);
        IsFilled(b, State(), ZeroPage());
        InvShape(State());
        MappedIff(b, d, a / PGSIZE);
        MappedIff(State(), d, a / PGSIZE);
        PteIs(State(), d, a / PGSIZE);
        var out, k := Mappages(d, a, PGSIZE, mem - KERNBASE, PERM_WU);
        remap := out.Remap?;
      }
    }

    // ----- copyuvm -----

    /** A copy of the first sz bytes of d, or 0 when there are too few frames, in whatever order a hole in
        the pages, which is a panic, and the lack of frames come. What was taken is given back, but for the
        frame of a page whose table there was no frame for, and for what setupkvm had taken. */
    method Copyuvm(d: nat, sz: Word) returns (pd: Word, panicked: bool)
      requires Inv(State()) && Space(State(), d) && d < NFRAMES && sz <= KERNBASE && 256 < data < NFRAMES
      modifies this
      ensures Inv(State()) && Kept(old(State()), State())
      ensures pd != 0 <==>
                NoHole(old(State()), d, Up(sz)) && |old(State()).free| >= KERNELFRAMES + CopyCost(Up(sz))
      ensures panicked <==>
                exists h :: FirstHole(old(State()), d, Up(sz), h) && |old(State()).free| >= KERNELFRAMES + CopyCost(h)
      ensures pd != 0 ==>
                && old(State()).free != [] && pd == Ptr(old(State()).free[0]) && Space(State(), old(State()).free[0])
                && CopiedTo(old(State()), State(), d, old(State()).free[0], Up(sz), data)
      ensures pd != 0 ==>
                forall q :: 0 <= q < ALLPAGES ==>
                  && (UserWrites(State(), old(State()).free[0], q) <==> q < Up(sz))
                  && (UserReads(State(), old(State()).free[0], q) <==> q < Up(sz))
      ensures pd == 0 && !panicked ==> GivenBack(old(State()), State())
    {
      hide Inv, HasTable, Pte, Mapped, MadeSpace, CopiedTo, Kept, SpaceFreed, Grown, Filled, Accounted, CopyCost,
        NoHole, CopyFrames, OneShort, AllBut, UserReads, UserWrites;
      ghost var m := State();
      InvShape(m);
      panicked := false;
      pd := Setupkvm();
      InvShape(State());
      if pd == 0 {
        KeptAll(m, State());
        return;
      }
      ghost var c := m.free[0];
      CopyStarted(m, State(), d, c, data);
      var i: nat := 0;
      while i < sz
        invariant Inv(State()) && Shape(State()) && Space(State(), c)
        invariant i % PGSIZE == 0 && i / PGSIZE <= Up(sz) <= USERPAGES && pd == Ptr(c)
        invariant CopiedTo(m, State(), d, c, i / PGSIZE, data)
        decreases sz - i
      {
        ghost var p, b := i / PGSIZE, State();
        ParentSame(m, b, d, c, p, data);
        CopyDropped(m, b, d, c, p, data);
        var out: Copied;
        out := CopyPage(d, (pd - KERNBASE) / PGSIZE, i);
        if out == Missing {
          HoleFound(m, b, d, c, p, data, Up(sz));
          return 0, true;
        } else if out != Good {
          StoppedCopying(m, b, d, c, p, data, Up(sz));
          ghost var lost := NFRAMES;
          if out == NoTable {
            CopyStuck(m, b, d, c, m.frames[FrameOf(Pte(m, d, p))]);
            lost := b.free[0];
          }
          ghost var k := State();
          InvShape(k);
          Freevm((pd - KERNBASE) / PGSIZE);
          InvShape(State());
          CopyUndone(m, k, State(), c, lost);
          return 0, false;
        }
        CopyNext(m, b, d, c, p, data);
        InvShape(State());
        i := i + PGSIZE;
      }
      CopyDropped(m, State(), d, c, Up(sz), data);
      CopyFinished(m, State(), d, c, Up(sz), data);
      CopySeen(m, State(), d, c, Up(sz), data);
    }

    lemma KeptAll(m: Vm, n: Vm)
      requires Shape(m) && Shape(n)
      requires forall x :: x in m.role ==>
                 x in n.role && n.role[x] == m.role[x] && x < NFRAMES && n.frames[x] == m.frames[x]
      ensures Kept(m, n)
    {
    }

    /** One round of the loop of copyuvm for the page at i of d. */
    method CopyPage(d: nat, c: nat, i: Word) returns (out: Copied)
      requires Inv(State()) && Space(State(), d) && Space(State(), c) && d != c && i % PGSIZE == 0 && i < KERNBASE
      requires d < NFRAMES && c < NFRAMES && !Mapped(State(), c, i / PGSIZE)
      modifies this
      ensures out == Missing <==> !Mapped(old(State()), d, i / PGSIZE)
      ensures out == Missing || out == NoFrame ==> State() == old(State())
      ensures out != Missing ==> FrameOf(Pte(old(State()), d, i / PGSIZE)) < NFRAMES
      ensures out == NoFrame ==> old(State()).free == []
      ensures out == Good ==>
                && old(State()).free != [] && (HasTable(old(State()), c, i / PGSIZE) || |old(State()).free| > 1)
                && State() == Grown(old(State()), c, i / PGSIZE,
                                    old(State()).frames[FrameOf(Pte(old(State()), d, i / PGSIZE))])
      ensures out == NoTable ==>
                && |old(State()).free| == 1 && !HasTable(old(State()), c, i / PGSIZE) && old(State()).free[0] < NFRAMES
                && State() == Filled(old(State()), old(State()).frames[FrameOf(Pte(old(State()), d, i / PGSIZE))])
    {
      hide Inv, HasTable, Pte, Mapped, PageMapped, Grown, Filled;
      ghost var b := State();
      ghost var p := i / PGSIZE;
      InvShape(b);
      PteIs(b, d, p);
      MappedIff(b, d, p);
      var ok, table := Walkpgdir(d, i, false);
      if !ok || !Present(ram.frames[table][i / PGSIZE % ENTRIES]) {
        return Missing;
      }
      UserPageRole(b, d, p);
      var pa := ram.frames[table][i / PGSIZE % ENTRIES] / PGSIZE * PGSIZE;
      assert pa / PGSIZE == FrameOf(Pte(b, d, p));
      out := CopyInto(c, i, pa);
    }

    /** kalloc, memmove and mappages of that round. */
    method CopyInto(c: nat, i: Word, pa: Word) returns (out: Copied)
      requires Inv(State()) && Space(State(), c) && i % PGSIZE == 0 && i < KERNBASE && pa / PGSIZE < NFRAMES
      requires c < NFRAMES && !Mapped(State(), c, i / PGSIZE)
      modifies this
      ensures out != Missing && (out == NoFrame ==> State() == old(State()) && old(State()).free == [])
      ensures out == Good ==>
                && old(State()).free != [] && (HasTable(old(State()), c, i / PGSIZE) || |old(State()).free| > 1)
                && State() == Grown(old(State()), c, i / PGSIZE, old(State()).frames[pa / PGSIZE])
      ensures out == NoTable ==>
                && |old(State()).free| == 1 && !HasTable(old(State()), c, i / PGSIZE) && old(State()).free[0] < NFRAMES
                && State() == Filled(old(State()), old(State()).frames[pa / PGSIZE])
    {
      hide Inv, HasTable, Pte, Mapped, PageMapped, KernelRange;
      ghost var b := State();
      ghost var p := i / PGSIZE;
      InvShape(b);
      var mem := Kalloc();
      if mem == 0 {
        return NoFrame;
      }
      var f := (mem - KERNBASE) / PGSIZE;
      assert f == b.free[0];
      var page := ram.frames[pa / PGSIZE];
      FilledInv(b, c, page);
      ram := ram.(frames := ram.frames[f := page]);
      IsFilled(b, State(), page);
      InvShape(State());
      MappedIff(b, c, p);
      MappedIff(State(), c, p);
      var done, k := Mappages(c, i, PGSIZE, mem - KERNBASE, PERM_WU);
      out := if done.Done? then Good else NoTable;
    }
  }
}
