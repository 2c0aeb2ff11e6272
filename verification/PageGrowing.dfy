/** What allocuvm does page by page, and exactly how many frames it needs. */
module PageGrowing {
  import opened PageTables
  import opened PageSteps
  import opened PageUses
  import opened PageRanges
  import opened PageFreeing
  import opened SpaceFreeing

  /** Frames needed to map the pages from lo up to hi: one each, and one for each missing table. */
  function Cost(m: Vm, d: nat, lo: nat, hi: nat): (c: nat)
    requires Shape(m) && d < NFRAMES && hi <= ALLPAGES
  {
    if hi <= lo then 0 else hi - lo + Tables(m, d, lo, hi)
  }

  lemma {:induction false} CostGrows(m: Vm, d: nat, lo: nat, p: nat, hi: nat)
    requires Shape(m) && d < NFRAMES && lo <= p <= hi <= ALLPAGES
    ensures Cost(m, d, lo, p) + (hi - p) <= Cost(m, d, lo, hi)
  {
    if p < hi {
      CostGrows(m, d, lo, p, hi - 1);
    }
  }

  /** kalloc, and memset or memmove: a page of given bytes, in no use yet. */
  function Filled(m: Vm, page: Page): (n: Vm)
    requires Shape(m) && Chained(m) && m.free != [] && m.free[0] < NFRAMES
    ensures Shape(n)
  {
    SetFrame(Popped(m), m.free[0], page)
  }

  lemma FilledInv(m: Vm, d: nat, page: Page)
    requires Inv(m) && Space(m, d) && m.free != []
    ensures m.free[0] < NFRAMES && m.free[0] !in m.role
    ensures var n := Filled(m, page); var f := m.free[0];
            && Inv(n) && Space(n, d) && n.free == m.free[1..] && n.role == m.role[f := Loose]
            && n.frames == m.frames[f := page]
            && (forall q :: 0 <= q < ALLPAGES ==>
                  Pte(n, d, q) == Pte(m, d, q) && (HasTable(n, d, q) <==> HasTable(m, d, q)))
  {
    PoppedInv(m);
    PlainWrite(Popped(m), m.free[0], page);
    InvShape(m);
    assert m.free[0] in m.free;
    hide Inv, Pte, HasTable;
  }

  lemma IsFilled(m: Vm, n: Vm, page: Page)
    requires Inv(m) && m.free != []
    requires m.free[0] < NFRAMES && n == SetFrame(Popped(m), m.free[0], page)
    ensures n == Filled(m, page)
  {
  }

  /** Page p gets a fresh frame with those bytes: a round of the loop of allocuvm or copyuvm. */
  function Grown(m: Vm, d: nat, p: nat, page: Page): (n: Vm)
    requires Inv(m) && Space(m, d) && p < USERPAGES && m.free != [] && (HasTable(m, d, p) || |m.free| > 1)
    ensures Shape(n) && m.free[0] < NFRAMES
  {
    FilledInv(m, d, page);
    PageMapped(Filled(m, page), d, p, m.free[0], PERM_WU)
  }

  lemma GrownKeeps(m: Vm, d: nat, p: nat, page: Page)
    requires Inv(m) && Space(m, d) && p < USERPAGES && m.free != [] && (HasTable(m, d, p) || |m.free| > 1)
    requires !Mapped(m, d, p)
    ensures var n := Grown(m, d, p, page); var f := m.free[0];
            && Inv(n) && Space(n, d) && Untouched(m, n, d) && m.role.Keys <= n.role.Keys
            && f !in m.role && f in n.role && n.role[f] == User(d, p) && f < NFRAMES && n.frames[f] == page
            && |n.free| == |m.free| - (if HasTable(m, d, p) then 1 else 2)
            && (forall q :: 0 <= q < ALLPAGES ==>
                  && Pte(n, d, q) == (if q == p then Entry(f, PERM_WU) else Pte(m, d, q))
                  && (HasTable(n, d, q) <==> HasTable(m, d, q) || q / ENTRIES == p / ENTRIES))
  {
    var f := m.free[0];
    FilledInv(m, d, page);
    var z := Filled(m, page);
    var n := Grown(m, d, p, page);
    UserPageMapped(z, d, p, f, PERM_WU);
    PageRole(n, d, p, f);
    InvShape(z);
    InvShape(m);
    hide Inv, Pte, HasTable, Mapped, Grown, Filled, Accounted;
    RolesKept(z, n, d, f);
    FreshUntouched(m, z, n, d, f, page);
  }

  lemma PageRole(m: Vm, d: nat, p: nat, f: nat)
    requires Inv(m) && Space(m, d) && p < USERPAGES && f < NFRAMES && Pte(m, d, p) == Entry(f, PERM_WU)
    ensures f in m.role && m.role[f] == User(d, p) && Mapped(m, d, p)
  {
  }

  lemma RolesKept(m: Vm, n: Vm, d: nat, f: nat)
    requires Shape(m) && Shape(n) && UntouchedBut(m, n, d, f) && Accounted(m, n, d, f) && f in n.role
    requires forall x :: x in m.role ==> x < NFRAMES
    ensures m.role.Keys <= n.role.Keys
  {
    forall x | x in m.role ensures x in n.role {
      if Walks(m, x, d) {
        assert Belongs(m, x, d);
      }
    }
  }

  lemma FreshUntouched(m: Vm, z: Vm, n: Vm, d: nat, f: nat, page: Page)
    requires Shape(m) && Shape(z) && Shape(n) && f < NFRAMES && UntouchedBut(z, n, d, f) && f !in m.role
    requires z.role == m.role[f := Loose] && z.frames == m.frames[f := page]
    ensures Untouched(m, n, d)
  {
  }

  /** The pages from lo up to p have been added, and the tables they need; nothing else changed. */
  ghost predicate GrownTo(m: Vm, n: Vm, d: nat, lo: nat, p: nat)
    requires Shape(m) && Shape(n) && d < NFRAMES && lo <= p <= USERPAGES
  {
    && |n.free| == |m.free| - Cost(m, d, lo, p) && m.role.Keys <= n.role.Keys
    && TablesAdded(m, n, d, lo, p)
    && PagesAdded(m, n, d, lo, p)
  }

  /** The pages from lo up to p have their tables, and no others have got theirs. */
  ghost predicate TablesAdded(m: Vm, n: Vm, d: nat, lo: nat, p: nat)
    requires Shape(m) && Shape(n) && d < NFRAMES && lo <= p
  {
    forall q :: 0 <= q < ALLPAGES ==>
      (HasTable(n, d, q) <==> HasTable(m, d, q) || (p > lo && lo / ENTRIES <= q / ENTRIES <= (p - 1) / ENTRIES))
  }

  /** The pages from lo up to p map fresh frames, the others what they did. */
  ghost predicate PagesAdded(m: Vm, n: Vm, d: nat, lo: nat, p: nat)
    requires Shape(m) && Shape(n) && d < NFRAMES && lo <= p <= USERPAGES
  {
    && (forall q :: 0 <= q < ALLPAGES && !(lo <= q < p) ==> Pte(n, d, q) == Pte(m, d, q))
    && (forall q :: lo <= q < p ==> NewPage(m, n, d, q))
  }

  /** No page from lo up to hi is mapped. */
  ghost predicate Clear(m: Vm, d: nat, lo: nat, hi: nat)
    requires Shape(m) && d < NFRAMES && hi <= ALLPAGES
  {
    forall q :: lo <= q < hi ==> !Mapped(m, d, q)
  }

  /** Page r is the first of those from lo up to hi that is mapped. */
  ghost predicate FirstMapped(m: Vm, d: nat, lo: nat, hi: nat, r: nat)
    requires Shape(m) && d < NFRAMES && hi <= ALLPAGES
  {
    lo <= r < hi && Mapped(m, d, r) && Clear(m, d, lo, r)
  }

  /** Page q maps a frame that was not in use, with zeros in it. */
  ghost predicate NewPage(m: Vm, n: Vm, d: nat, q: nat)
    requires Shape(n) && d < NFRAMES && q < ALLPAGES
  {
    var f := FrameOf(Pte(n, d, q));
    && Mapped(n, d, q) && f < NFRAMES && f !in m.role
    && f in n.role && n.role[f] == User(d, q) && n.frames[f] == ZeroPage()
  }

  lemma GrownNext(m: Vm, b: Vm, d: nat, lo: nat, p: nat)
    requires Inv(m) && Space(m, d) && d < NFRAMES && Inv(b) && Space(b, d) && lo <= p < USERPAGES
    requires GrownTo(m, b, d, lo, p) && Untouched(m, b, d) && !Mapped(b, d, p)
    requires b.free != [] && (NewTable(m, d, lo, p) ==> |b.free| > 1)
    ensures HasTable(b, d, p) || |b.free| > 1
    ensures var n := Grown(b, d, p, ZeroPage());
            Inv(n) && Space(n, d) && Untouched(m, n, d) && GrownTo(m, n, d, lo, p + 1)
  {
    TableThere(m, b, d, lo, p);
    GrownKeeps(b, d, p, ZeroPage());
    InvShape(m);
    InvShape(b);
    hide Inv, Pte, HasTable, Mapped, Grown, Cost, Entry, NewPage, GrownTo, Untouched;
    UntouchedOnce(m, b, Grown(b, d, p, ZeroPage()), d);
    GrownToNext(m, b, Grown(b, d, p, ZeroPage()), d, lo, p);
  }

  lemma GrownToNext(m: Vm, b: Vm, n: Vm, d: nat, lo: nat, p: nat)
    requires Shape(m) && Shape(b) && Shape(n) && d < NFRAMES && lo <= p < USERPAGES && GrownTo(m, b, d, lo, p)
    requires Untouched(b, n, d) && b.role.Keys <= n.role.Keys && b.free != [] && b.free[0] < NFRAMES
    requires b.free[0] !in b.role
    requires b.free[0] in n.role && n.role[b.free[0]] == User(d, p) && n.frames[b.free[0]] == ZeroPage()
    requires |n.free| == |b.free| - (if NewTable(m, d, lo, p) then 2 else 1)
    requires forall q :: 0 <= q < ALLPAGES ==>
               Pte(n, d, q) == if q == p then Entry(b.free[0], PERM_WU) else Pte(b, d, q)
    requires forall q :: 0 <= q < ALLPAGES ==> (HasTable(n, d, q) <==> HasTable(b, d, q) || q / ENTRIES == p / ENTRIES)
    ensures GrownTo(m, n, d, lo, p + 1)
  {
    hide Pte, HasTable, Mapped, Cost, Entry, NewPage, Untouched, NewTable;
    forall q | lo <= q < p ensures NewPage(m, n, d, q) {
      NewPageKept(m, b, n, d, q);
    }
    NewPageAt(m, b, n, d, p);
    GrownTables(m, b, n, d, lo, p);
    CostNext(m, d, lo, p);
  }

  lemma CostNext(m: Vm, d: nat, lo: nat, p: nat)
    requires Shape(m) && d < NFRAMES && lo <= p < ALLPAGES
    ensures Cost(m, d, lo, p + 1) == Cost(m, d, lo, p) + 1 + (if NewTable(m, d, lo, p) then 1 else 0)
  {
  }

  lemma UntouchedOnce(m: Vm, b: Vm, n: Vm, d: nat)
    requires Shape(m) && Shape(b) && Shape(n) && Untouched(m, b, d) && Untouched(b, n, d)
    ensures Untouched(m, n, d)
  {
    UntouchedThen(m, b, n, d, NFRAMES);
  }

  lemma NewPageKept(m: Vm, b: Vm, n: Vm, d: nat, q: nat)
    requires Shape(b) && Shape(n) && d < NFRAMES && q < ALLPAGES
    requires NewPage(m, b, d, q) && Untouched(b, n, d) && Pte(n, d, q) == Pte(b, d, q)
    ensures NewPage(m, n, d, q)
  {
    MappedIff(b, d, q);
    MappedIff(n, d, q);
    hide Pte, Mapped;
  }

  lemma NewPageAt(m: Vm, b: Vm, n: Vm, d: nat, p: nat)
    requires Shape(m) && Shape(b) && Shape(n) && d < NFRAMES && p < ALLPAGES
    requires b.free != [] && b.free[0] < NFRAMES && b.free[0] !in m.role && Pte(n, d, p) == Entry(b.free[0], PERM_WU)
    requires b.free[0] in n.role && n.role[b.free[0]] == User(d, p) && n.frames[b.free[0]] == ZeroPage()
    ensures NewPage(m, n, d, p)
  {
    MappedIff(n, d, p);
    hide Pte, Mapped;
  }

  lemma GrownTables(m: Vm, b: Vm, n: Vm, d: nat, lo: nat, p: nat)
    requires Shape(m) && Shape(b) && Shape(n) && d < NFRAMES && lo <= p < USERPAGES && GrownTo(m, b, d, lo, p)
    requires forall q :: 0 <= q < ALLPAGES ==> (HasTable(n, d, q) <==> HasTable(b, d, q) || q / ENTRIES == p / ENTRIES)
    ensures forall q :: 0 <= q < ALLPAGES ==>
              (HasTable(n, d, q) <==> HasTable(m, d, q) || lo / ENTRIES <= q / ENTRIES <= p / ENTRIES)
  {
    hide Pte, Mapped, NewPage, HasTable, Cost;
  }

  lemma TableThere(m: Vm, b: Vm, d: nat, lo: nat, p: nat)
    requires Inv(m) && Space(m, d) && d < NFRAMES && Inv(b) && lo <= p < USERPAGES && GrownTo(m, b, d, lo, p)
    ensures HasTable(b, d, p) <==> !NewTable(m, d, lo, p)
  {
    hide Inv, Pte, Mapped, NewPage, Cost;
    InvShape(m);
    SameTable4MB(m, d, p);
  }

  lemma GrownNone(m: Vm, d: nat, lo: nat)
    requires Inv(m) && Space(m, d) && d < NFRAMES && lo <= USERPAGES
    ensures GrownTo(m, m, d, lo, lo) && Untouched(m, m, d)
  {
  }

  lemma GrownPrefix(m: Vm, n: Vm, d: nat, lo: nat, p: nat)
    requires Shape(m) && Shape(n) && d < NFRAMES && lo <= p <= USERPAGES && GrownTo(m, n, d, lo, p) && Prefix(m, d, lo)
    ensures Prefix(n, d, p)
  {
    hide Pte, HasTable, Cost;
    forall q | 0 <= q < USERPAGES ensures Mapped(n, d, q) <==> q < p {
      MappedIff(m, d, q);
      MappedIff(n, d, q);
      if lo <= q < p {
        assert NewPage(m, n, d, q);
      }
    }
  }

  /** The frame for page p - 1 was taken, but there was none left for its table. */
  ghost predicate Stuck(m: Vm, n: Vm, d: nat, lo: nat, p: nat)
    requires Shape(m) && Shape(n) && d < NFRAMES
  {
    && lo < p <= USERPAGES && n.free == [] && |m.free| == Cost(m, d, lo, p) - 1 && NewTable(m, d, lo, p - 1)
    && PagesAdded(m, n, d, lo, p - 1) && TablesAdded(m, n, d, lo, p - 1)
  }

  lemma StuckNow(m: Vm, b: Vm, d: nat, lo: nat, p: nat)
    requires Inv(m) && Space(m, d) && d < NFRAMES && Inv(b) && Space(b, d) && lo <= p < USERPAGES
    requires GrownTo(m, b, d, lo, p) && Untouched(m, b, d) && |b.free| == 1 && !HasTable(b, d, p)
    ensures b.free[0] < NFRAMES && Inv(Filled(b, ZeroPage())) && Space(Filled(b, ZeroPage()), d)
    ensures Untouched(m, Filled(b, ZeroPage()), d) && Stuck(m, Filled(b, ZeroPage()), d, lo, p + 1)
  {
    FilledInv(b, d, ZeroPage());
    TableThere(m, b, d, lo, p);
    CostNext(m, d, lo, p);
    StuckUntouched(m, b, d, p);
    InvShape(m);
    InvShape(b);
    hide Inv, Pte, HasTable, Mapped, Cost, NewPage, Untouched, Filled;
    PagesStay(m, b, Filled(b, ZeroPage()), d, lo, p);
  }

  lemma PagesStay(m: Vm, b: Vm, n: Vm, d: nat, lo: nat, p: nat)
    requires Shape(m) && Shape(b) && Shape(n) && d < NFRAMES && lo <= p <= USERPAGES && PagesAdded(m, b, d, lo, p)
    requires b.free != [] && b.free[0] !in b.role && b.free[0] < NFRAMES
    requires n.role == b.role[b.free[0] := Loose] && n.frames == b.frames[b.free[0] := ZeroPage()]
    requires forall q :: 0 <= q < ALLPAGES ==> Pte(n, d, q) == Pte(b, d, q)
    ensures PagesAdded(m, n, d, lo, p)
  {
    forall q | lo <= q < p ensures NewPage(m, n, d, q) {
      assert NewPage(m, b, d, q);
      MappedIff(b, d, q);
      MappedIff(n, d, q);
    }
    hide Pte, Mapped;
  }

  lemma StuckUntouched(m: Vm, b: Vm, d: nat, p: nat)
    requires Inv(m) && Inv(b) && Untouched(m, b, d) && b.free != [] && m.role.Keys <= b.role.Keys
    requires b.free[0] < NFRAMES && b.free[0] !in b.role
    ensures Untouched(m, Filled(b, ZeroPage()), d)
  {
    hide Tabled, Paged, Guarded;
  }

  /** What is mapped while pages are added. */
  lemma AddedMapped(m: Vm, b: Vm, d: nat, lo: nat, k: nat, q: nat)
    requires Shape(m) && Shape(b) && d < NFRAMES && lo <= k <= USERPAGES && PagesAdded(m, b, d, lo, k) && q < ALLPAGES
    ensures Mapped(b, d, q) <==> Mapped(m, d, q) || lo <= q < k
  {
    MappedIff(m, d, q);
    MappedIff(b, d, q);
    if lo <= q < k {
      assert NewPage(m, b, d, q);
    }
    hide Pte, Mapped;
  }

  /** What deallocuvm undoes. */
  lemma Undone(m: Vm, b: Vm, n: Vm, d: nat, lo: nat, hi: nat, k: nat)
    requires Inv(m) && Space(m, d) && Inv(b) && Space(b, d) && d < NFRAMES && Untouched(m, b, d)
    requires Freed(b, n, d, lo, hi)
    requires lo <= k <= hi <= USERPAGES && PagesAdded(m, b, d, lo, k)
    ensures Inv(n) && Space(n, d) && KeptBut(m, n, d)
    ensures forall q :: 0 <= q < USERPAGES && !(lo <= q < hi) ==> Pte(n, d, q) == Pte(m, d, q)
    ensures Clear(m, d, lo, hi) ==> Untouched(m, n, d) && Clear(n, d, lo, hi)
  {
    FreedInv(b, n, d, lo, hi);
    InvShape(m);
    InvShape(b);
    InvShape(n);
    UntouchedKept(m, b, d);
    FreedKeptBut(b, n, d, lo, hi);
    KeptThen(m, b, n, d);
    if Clear(m, d, lo, hi) {
      OldPagesOutside(m, d, lo, hi);
      FreedUntouched(m, b, n, d, lo, hi);
      UndoneClear(m, b, n, d, lo, hi, k);
    }
    hide Inv, Pte, HasTable, Mapped, FramesFreed, Skipped, Untouched, Clear, KeptBut;
  }

  /** Which pages of the range stay mapped: those that were and that the walk of deallocuvm passes over,
      which it does only if no page has been added. */
  lemma LeftOver(m: Vm, b: Vm, n: Vm, d: nat, lo: nat, hi: nat, k: nat, q: nat)
    requires Inv(m) && Inv(b) && Space(b, d) && d < NFRAMES && Freed(b, n, d, lo, hi) && Shape(n)
    requires lo <= k <= hi <= USERPAGES && PagesAdded(m, b, d, lo, k) && TablesAdded(m, b, d, lo, k) && lo <= q < hi
    ensures Mapped(n, d, q) <==> k == lo && Mapped(m, d, q) && Skipped(m, d, lo, q)
  {
    InvShape(b);
    hide Inv, Pte, HasTable, Mapped, Freed, PagesAdded, Skipped, TablesAdded;
    DeallocExact(b, n, d, lo, hi, q);
    AddedMapped(m, b, d, lo, k, q);
    if k > lo {
      AddedMapped(m, b, d, lo, k, lo);
      NotSkipped(b, d, lo, q);
    } else {
      SameSkips(m, b, d, lo, q);
    }
  }

  lemma SameSkips(m: Vm, b: Vm, d: nat, lo: nat, q: nat)
    requires Shape(m) && Shape(b) && d < NFRAMES && TablesAdded(m, b, d, lo, lo) && q < USERPAGES
    ensures Skipped(b, d, lo, q) <==> Skipped(m, d, lo, q)
  {
    hide HasTable;
    assert forall i :: 0 <= i < ENTRIES ==> (TableAt(b, d, i) <==> TableAt(m, d, i));
    hide TableAt;
  }

  /** The frames do not suffice for one page. */
  predicate NothingAdded(m: Vm, d: nat, lo: nat)
    requires Shape(m) && d < NFRAMES && lo < ALLPAGES
  {
    |m.free| == 0 || (|m.free| == 1 && !HasTable(m, d, lo))
  }

  lemma AnythingAdded(m: Vm, b: Vm, d: nat, lo: nat, p: nat, stuck: bool)
    requires Shape(m) && Shape(b) && d < NFRAMES && p < USERPAGES && Growing(m, b, d, lo, p, stuck) && b.free == []
    ensures var k := if stuck then p - 1 else p;
            && lo <= k && TablesAdded(m, b, d, lo, k) && PagesAdded(m, b, d, lo, k)
            && (k == lo <==> NothingAdded(m, d, lo))
  {
    hide HasTable, PagesAdded, TablesAdded, Clear;
    var k := if stuck then p - 1 else p;
    CostNext(m, d, lo, lo);
    if k > lo {
      CostGrows(m, d, lo, lo + 1, k);
      CostNext(m, d, lo, k);
    }
  }

  lemma UndoneClear(m: Vm, b: Vm, n: Vm, d: nat, lo: nat, hi: nat, k: nat)
    requires Inv(m) && Inv(b) && Space(b, d) && d < NFRAMES && Freed(b, n, d, lo, hi) && Shape(n)
    requires lo <= k <= hi <= USERPAGES && PagesAdded(m, b, d, lo, k) && Clear(m, d, lo, hi)
    ensures Clear(n, d, lo, hi)
  {
    InvShape(b);
    hide Inv, Pte, HasTable, Mapped, Freed, PagesAdded, Skipped;
    forall q | lo <= q < hi ensures !Mapped(n, d, q) {
      DeallocExact(b, n, d, lo, hi, q);
      AddedMapped(m, b, d, lo, k, q);
      if q < k {
        AddedMapped(m, b, d, lo, k, lo);
        NotSkipped(b, d, lo, q);
      }
    }
  }

  /** From a mapped page on, the walk of deallocuvm skips nothing. */
  lemma NotSkipped(m: Vm, d: nat, lo: nat, q: nat)
    requires Shape(m) && d < NFRAMES && lo <= q < USERPAGES && Mapped(m, d, lo)
    ensures !Skipped(m, d, lo, q)
  {
    assert TableAt(m, d, lo / ENTRIES);
  }

  lemma OldPagesOutside(m: Vm, d: nat, lo: nat, hi: nat)
    requires Inv(m) && Space(m, d) && d < NFRAMES && hi <= USERPAGES && Clear(m, d, lo, hi)
    ensures forall x :: x in m.role && m.role[x].User? && m.role[x].d == d ==> !(lo <= m.role[x].p < hi)
  {
    OnlyMapped(m, d);
    hide Inv, Pte, HasTable, Mapped;
  }

  lemma FreedUntouched(m: Vm, b: Vm, n: Vm, d: nat, lo: nat, hi: nat)
    requires Inv(m) && Space(m, d) && Inv(b) && Space(b, d) && Inv(n) && d < NFRAMES
    requires Untouched(m, b, d) && Freed(b, n, d, lo, hi)
    requires forall x :: x in m.role && m.role[x].User? && m.role[x].d == d ==> !(lo <= m.role[x].p < hi)
    ensures Untouched(m, n, d)
  {
    InvShape(m);
    hide Inv, Pte, HasTable, Mapped, EntriesCleared, Skipped;
  }

  // ----- the loop of allocuvm -----

  /** Before the round for page p: none of those before it was mapped, and they have been added, but
      for the last one if there was no frame for its table. */
  ghost predicate Growing(m: Vm, b: Vm, d: nat, lo: nat, p: nat, stuck: bool)
    requires Shape(m) && Shape(b) && d < NFRAMES && p <= ALLPAGES
  {
    && lo <= p <= USERPAGES && Clear(m, d, lo, p)
    && (stuck ==> Stuck(m, b, d, lo, p)) && (!stuck ==> GrownTo(m, b, d, lo, p))
  }

  /** How the count of frames stands, and whether the page is mapped. */
  lemma GrowingAt(m: Vm, b: Vm, d: nat, lo: nat, p: nat, stuck: bool)
    requires Inv(m) && Space(m, d) && d < NFRAMES && Inv(b) && Space(b, d) && p < USERPAGES
    requires Growing(m, b, d, lo, p, stuck)
    ensures lo <= p && (Mapped(b, d, p) <==> Mapped(m, d, p))
    ensures var k := if stuck then p - 1 else p; lo <= k && PagesAdded(m, b, d, lo, k)
    ensures stuck ==> b.free == [] && |m.free| < Cost(m, d, lo, p)
    ensures !stuck ==> |b.free| == |m.free| - Cost(m, d, lo, p) && (HasTable(b, d, p) <==> !NewTable(m, d, lo, p))
    ensures b.free == [] ==> |m.free| <= Cost(m, d, lo, p)
  {
    InvShape(m);
    InvShape(b);
    hide Inv, HasTable, Pte, NewPage, PagesAdded, Mapped, Cost, Clear;
    if !stuck {
      TableThere(m, b, d, lo, p);
      AddedMapped(m, b, d, lo, p, p);
    } else {
      AddedMapped(m, b, d, lo, p - 1, p);
    }
  }

  /** When kalloc fails, there are too few frames, in the way that is undone. */
  lemma TooFew(m: Vm, d: nat, lo: nat, p: nat, hi: nat)
    requires Shape(m) && d < NFRAMES && lo <= p < hi <= ALLPAGES && |m.free| <= Cost(m, d, lo, p)
    ensures |m.free| < Cost(m, d, lo, hi) && !(|m.free| == Cost(m, d, lo, hi) - 1 && NewTable(m, d, lo, hi - 1))
    ensures forall r :: p <= r < hi ==> |m.free| <= Cost(m, d, lo, r)
  {
    hide HasTable;
    CostNext(m, d, lo, hi - 1);
    hide Cost;
    CostGrows(m, d, lo, p, hi - 1);
    forall r | p <= r < hi ensures |m.free| <= Cost(m, d, lo, r) {
      CostGrows(m, d, lo, p, r);
    }
  }

  lemma GrowingStart(m: Vm, d: nat, lo: nat)
    requires Inv(m) && Space(m, d) && d < NFRAMES && lo <= USERPAGES
    ensures Growing(m, m, d, lo, lo, false) && Untouched(m, m, d)
  {
    GrownNone(m, d, lo);
  }

  /** A round that did not fail. */
  lemma GrowingNext(m: Vm, b: Vm, n: Vm, d: nat, lo: nat, p: nat)
    requires Inv(m) && Space(m, d) && d < NFRAMES && Inv(b) && Space(b, d) && p < USERPAGES
    requires Growing(m, b, d, lo, p, false) && Untouched(m, b, d) && b.free != [] && !Mapped(b, d, p)
    requires b.free[0] < NFRAMES
    requires if HasTable(b, d, p) || |b.free| > 1 then n == Grown(b, d, p, ZeroPage()) else n == Filled(b, ZeroPage())
    ensures Inv(n) && Space(n, d) && Shape(n) && Untouched(m, n, d)
    ensures Growing(m, n, d, lo, p + 1, !HasTable(b, d, p) && |b.free| == 1)
  {
    GrowingAt(m, b, d, lo, p, false);
    InvShape(m);
    hide Inv, Mapped, Pte, HasTable, Grown, Filled, Untouched, Growing, GrownTo, NewTable;
    GrowingIs(m, b, d, lo, p);
    if HasTable(b, d, p) || |b.free| > 1 {
      GrownNext(m, b, d, lo, p);
      InvShape(n);
      GrowingMade(m, b, n, d, lo, p);
    } else {
      StuckNow(m, b, d, lo, p);
      InvShape(n);
      GrowingStuck(m, b, n, d, lo, p);
    }
  }

  lemma GrowingIs(m: Vm, b: Vm, d: nat, lo: nat, p: nat)
    requires Shape(m) && Shape(b) && d < NFRAMES && p < USERPAGES && Growing(m, b, d, lo, p, false)
    ensures lo <= p && GrownTo(m, b, d, lo, p)
  {
  }

  lemma GrowingMade(m: Vm, b: Vm, n: Vm, d: nat, lo: nat, p: nat)
    requires Shape(m) && Shape(b) && Shape(n) && d < NFRAMES && p < USERPAGES && Growing(m, b, d, lo, p, false)
    requires !Mapped(m, d, p) && GrownTo(m, n, d, lo, p + 1)
    ensures Growing(m, n, d, lo, p + 1, false)
  {
    hide Mapped, GrownTo;
  }

  lemma GrowingStuck(m: Vm, b: Vm, n: Vm, d: nat, lo: nat, p: nat)
    requires Shape(m) && Shape(b) && Shape(n) && d < NFRAMES && p < USERPAGES && Growing(m, b, d, lo, p, false)
    requires !Mapped(m, d, p) && Stuck(m, n, d, lo, p + 1)
    ensures Growing(m, n, d, lo, p + 1, true)
  {
    hide Mapped, GrownTo, Stuck;
  }

  /** When the loop ends by itself. */
  lemma GrowingEnd(m: Vm, n: Vm, d: nat, lo: nat, hi: nat, stuck: bool)
    requires Shape(m) && Shape(n) && d < NFRAMES && lo <= hi <= USERPAGES && Growing(m, n, d, lo, hi, stuck)
    ensures Clear(m, d, lo, hi) && forall q :: 0 <= q < ALLPAGES && !(lo <= q < hi) ==> Pte(n, d, q) == Pte(m, d, q)
    ensures stuck ==>
              Stuck(m, n, d, lo, hi) && lo < hi && |m.free| == Cost(m, d, lo, hi) - 1 && NewTable(m, d, lo, hi - 1)
    ensures !stuck ==> |m.free| >= Cost(m, d, lo, hi) && GrownTo(m, n, d, lo, hi)
  {
    hide HasTable, Pte, NewPage, Cost;
  }

  /** kalloc has failed at page p, and deallocuvm has been called. */
  lemma GaveUp(m: Vm, b: Vm, n: Vm, d: nat, lo: nat, hi: nat, p: nat, stuck: bool)
    requires Inv(m) && Space(m, d) && Inv(b) && Space(b, d) && d < NFRAMES && Untouched(m, b, d)
    requires Freed(b, n, d, lo, hi)
    requires lo <= p < hi <= USERPAGES && Growing(m, b, d, lo, p, stuck) && b.free == []
    ensures Inv(n) && Space(n, d) && Shape(n) && KeptBut(m, n, d)
    ensures forall q :: 0 <= q < USERPAGES && !(lo <= q < hi) ==> Pte(n, d, q) == Pte(m, d, q)
    ensures forall q :: lo <= q < hi ==>
              (Mapped(n, d, q) <==> NothingAdded(m, d, lo) && Mapped(m, d, q) && Skipped(m, d, lo, q))
    ensures forall r :: FirstMapped(m, d, lo, hi, r) ==> |m.free| <= Cost(m, d, lo, r)
    ensures Clear(m, d, lo, hi) ==>
              && Untouched(m, n, d) && Clear(n, d, lo, hi)
              && |m.free| < Cost(m, d, lo, hi) && !(|m.free| == Cost(m, d, lo, hi) - 1 && NewTable(m, d, lo, hi - 1))
  {
    GrowingAt(m, b, d, lo, p, stuck);
    InvShape(m);
    TooFew(m, d, lo, p, hi);
    InvShape(b);
    AnythingAdded(m, b, d, lo, p, stuck);
    hide Inv, Mapped, Pte, HasTable, Cost, GrownTo, Stuck, PagesAdded, TablesAdded, Freed, Untouched, NewTable, KeptBut,
      Skipped, NothingAdded;
    var k := if stuck then p - 1 else p;
    Undone(m, b, n, d, lo, hi, k);
    InvShape(n);
    forall q | lo <= q < hi
      ensures Mapped(n, d, q) <==> NothingAdded(m, d, lo) && Mapped(m, d, q) && Skipped(m, d, lo, q)
    {
      LeftOver(m, b, n, d, lo, hi, k, q);
    }
  }

  /** kalloc has not failed, and page p is mapped. */
  lemma MetMapped(m: Vm, b: Vm, d: nat, lo: nat, hi: nat, p: nat, stuck: bool)
    requires Inv(m) && Space(m, d) && Inv(b) && Space(b, d) && d < NFRAMES
    requires lo <= p < hi <= USERPAGES && Growing(m, b, d, lo, p, stuck) && b.free != [] && Mapped(b, d, p)
    ensures FirstMapped(m, d, lo, hi, p) && |m.free| > Cost(m, d, lo, p) && !Clear(m, d, lo, hi)
  {
    GrowingAt(m, b, d, lo, p, stuck);
    InvShape(m);
    hide Inv, Mapped, Pte, HasTable, Cost, GrownTo, Stuck, PagesAdded, NewTable;
  }

  lemma NoneMapped(m: Vm, d: nat, lo: nat, hi: nat)
    requires Shape(m) && d < NFRAMES && hi <= ALLPAGES && Clear(m, d, lo, hi)
    ensures forall r :: !FirstMapped(m, d, lo, hi, r)
  {
  }
}
