/** Mapping pages one after the other, and what that costs in frames. */
module PageRanges {
  import opened Basics
  import opened PageTables
  import opened PageSteps
  import opened PageUses

  /** walkpgdir with alloc set, when it succeeds. */
  function Walked(m: Vm, d: nat, p: nat): (n: Vm)
    requires Inv(m) && Space(m, d) && p < ALLPAGES && (HasTable(m, d, p) || m.free != [])
    ensures Inv(n) && Space(n, d) && HasTable(n, d, p) && n.role.Keys >= m.role.Keys
    ensures forall x :: x in m.role ==> n.role[x] == m.role[x]
    ensures forall e: nat, q: nat :: q < ALLPAGES && Space(m, e) ==> Pte(n, e, q) == Pte(m, e, q)
  {
    if HasTable(m, d, p) then m else
      TableAddedInv(m, d, p);
      TableAddedTables(m, d, p);
      PoppedChained(m);
      TableAdded(m, d, p)
  }

  /** Page p of d maps frame f. */
  function PageMapped(m: Vm, d: nat, p: nat, f: nat, perm: nat): (n: Vm)
    requires Inv(m) && Space(m, d) && p < ALLPAGES && (HasTable(m, d, p) || m.free != []) && f < ALLPAGES
    requires perm < PGSIZE - 1 && perm % 2 == 0 && (p < USERPAGES ==> f < NFRAMES)
  {
    if p < USERPAGES then UserMapped(Walked(m, d, p), d, p, f)
    else SetPte(Walked(m, d, p), d, p, Entry(f, perm))
  }

  /** Each frame taken from the free list is now part of d, or f itself. */
  ghost predicate Accounted(m: Vm, n: Vm, d: nat, f: nat)
  {
    && (forall x :: x in n.free ==> x in m.free)
    && (forall x {:trigger x in m.free} :: x in m.free ==> x in n.free || Belongs(n, x, d) || x == f)
    && (forall x {:trigger x in n.role} :: x in n.role ==> x in m.role || Belongs(n, x, d) || x == f)
    && (forall x :: Belongs(m, x, d) ==> Belongs(n, x, d))
  }

  lemma WalkedKeeps(m: Vm, d: nat, p: nat)
    requires Inv(m) && Space(m, d) && p < ALLPAGES && (HasTable(m, d, p) || m.free != [])
    ensures var n := Walked(m, d, p);
            && Untouched(m, n, d) && Accounted(m, n, d, NFRAMES)
            && |n.free| == |m.free| - (if HasTable(m, d, p) then 0 else 1)
            && (forall q :: 0 <= q < ALLPAGES ==>
                  (HasTable(n, d, q) <==> HasTable(m, d, q) || q / ENTRIES == p / ENTRIES))
  {
    hide Chained, Tabled, Paged, Guarded;
    if !HasTable(m, d, p) {
      TableAddedTables(m, d, p);
      PoppedChained(m);
      TableTaken(m, d, p);
    } else {
      SameTable(m, d, p);
    }
  }

  lemma SameTable(m: Vm, d: nat, p: nat)
    requires Inv(m) && Space(m, d) && p < ALLPAGES && HasTable(m, d, p)
    ensures forall q :: 0 <= q < ALLPAGES && q / ENTRIES == p / ENTRIES ==> HasTable(m, d, q)
  {
  }

  lemma TableTaken(m: Vm, d: nat, p: nat)
    requires Inv(m) && Space(m, d) && p < ALLPAGES && m.free != []
    ensures var n := TableAdded(m, d, p); Untouched(m, n, d) && Accounted(m, n, d, NFRAMES)
  {
    hide Chained, Tabled, Paged, Guarded;
    PoppedChained(m);
    var n := TableAdded(m, d, p);
    assert n.free == m.free[1..] && m.free == [m.free[0]] + n.free;
    assert Belongs(n, m.free[0], d);
    assert Walks(m, d, d);
  }

  lemma SetPteUntouched(m: Vm, d: nat, p: nat, w: Word)
    requires Inv(m) && Space(m, d) && p < ALLPAGES && HasTable(m, d, p)
    ensures Untouched(m, SetPte(m, d, p, w), d)
  {
    TableRole(m, d, p);
    hide Chained, Tabled, Paged, Guarded;
    assert Walks(m, FrameOf(Pde(m, d, p / ENTRIES)), d);
  }

  /** A loose frame is mapped as user page p: the one entry changes, and its use. */
  lemma UserMappedKeeps(m: Vm, d: nat, p: nat, f: nat)
    requires Inv(m) && Space(m, d) && p < USERPAGES && HasTable(m, d, p)
    requires !Mapped(m, d, p) && f in m.role && m.role[f] == Loose && f < NFRAMES
    ensures var n := UserMapped(m, d, p, f);
            && Inv(n) && Space(n, d) && Accounted(m, n, d, f) && n.free == m.free && UntouchedBut(m, n, d, f)
            && n.frames[f] == m.frames[f]
            && (forall q :: 0 <= q < ALLPAGES ==>
                  && Pte(n, d, q) == (if q == p then Entry(f, PERM_WU) else Pte(m, d, q))
                  && (HasTable(n, d, q) <==> HasTable(m, d, q)))
  {
    UserMappedInv(m, d, p, f);
    SetPteTables(m, d, p, Entry(f, PERM_WU));
    SetPteUntouched(m, d, p, Entry(f, PERM_WU));
    hide Inv, Mapped, Pte, HasTable, Untouched, SetPte;
    UserMappedFrames(m, SetPte(m, d, p, Entry(f, PERM_WU)), d, p, f);
  }

  lemma UserMappedFrames(m: Vm, k: Vm, d: nat, p: nat, f: nat)
    requires Shape(m) && Shape(k) && Untouched(m, k, d) && k.role == m.role && k.free == m.free
    requires f in m.role && m.role[f] == Loose
    ensures Accounted(m, WithRole(k, f, User(d, p)), d, f) && UntouchedBut(m, WithRole(k, f, User(d, p)), d, f)
    ensures f < NFRAMES ==> k.frames[f] == m.frames[f]
  {
  }

  /** What a successful mappages of one user page does. */
  lemma UserPageMapped(m: Vm, d: nat, p: nat, f: nat, perm: nat)
    requires Inv(m) && Space(m, d) && p < USERPAGES && (HasTable(m, d, p) || m.free != [])
    requires !Mapped(m, d, p) && f in m.role && m.role[f] == Loose && f < NFRAMES
    requires perm < PGSIZE - 1 && perm % 2 == 0
    ensures var n := PageMapped(m, d, p, f, perm);
            && Inv(n) && Space(n, d) && Accounted(m, n, d, f) && UntouchedBut(m, n, d, f)
            && n.frames[f] == m.frames[f]
            && |n.free| == |m.free| - (if HasTable(m, d, p) then 0 else 1)
            && (forall q :: 0 <= q < ALLPAGES ==>
                  && Pte(n, d, q) == (if q == p then Entry(f, PERM_WU) else Pte(m, d, q))
                  && (HasTable(n, d, q) <==> HasTable(m, d, q) || q / ENTRIES == p / ENTRIES))
  {
    WalkedKeeps(m, d, p);
    MappedIff(m, d, p);
    MappedIff(Walked(m, d, p), d, p);
    UserMappedKeeps(Walked(m, d, p), d, p, f);
    UntouchedFrame(m, Walked(m, d, p), d, f);
    hide Inv, Mapped, Pte, HasTable, Walked, UserMapped, Belongs, Walks;
    UntouchedThen(m, Walked(m, d, p), PageMapped(m, d, p, f, perm), d, f);
    AccountedThen(m, Walked(m, d, p), PageMapped(m, d, p, f, perm), d, f);
  }

  lemma UntouchedThen(m: Vm, k: Vm, n: Vm, d: nat, x: nat)
    requires Shape(m) && Shape(k) && Shape(n) && Untouched(m, k, d) && UntouchedBut(k, n, d, x)
    ensures UntouchedBut(m, n, d, x)
  {
  }

  lemma UntouchedFrame(m: Vm, n: Vm, d: nat, f: nat)
    requires Shape(m) && Shape(n) && Untouched(m, n, d) && f in m.role && m.role[f] == Loose && f < NFRAMES
    ensures n.frames[f] == m.frames[f]
  {
  }

  lemma AccountedThen(m: Vm, k: Vm, n: Vm, d: nat, x: nat)
    requires Accounted(m, k, d, NFRAMES) && Accounted(k, n, d, x) && NFRAMES !in m.free && NFRAMES !in k.role
    ensures Accounted(m, n, d, x)
  {
    hide Belongs, Walks;
  }

  // ----- the tables a range needs -----

  /** Page p is the first of those from lo on that needs its table. */
  predicate NewTable(m: Vm, d: nat, lo: nat, p: nat)
    requires Shape(m) && d < NFRAMES && lo <= p < ALLPAGES
  {
    !HasTable(m, d, p) && (p == lo || p % ENTRIES == 0)
  }

  /** The tables that are missing for the pages from lo up to hi. */
  function Tables(m: Vm, d: nat, lo: nat, hi: nat): (c: nat)
    requires Shape(m) && d < NFRAMES && hi <= ALLPAGES
  {
    if hi <= lo then 0 else Tables(m, d, lo, hi - 1) + (if NewTable(m, d, lo, hi - 1) then 1 else 0)
  }

  /** The k pages from p on have got the tables that were missing, each from a free frame. */
  ghost predicate RangeTables(m: Vm, n: Vm, d: nat, p: nat, k: nat)
    requires Shape(m) && Shape(n) && d < NFRAMES && p + k <= ALLPAGES
  {
    && |n.free| == |m.free| - Tables(m, d, p, p + k)
    && (forall q :: 0 <= q < ALLPAGES ==>
          (HasTable(n, d, q) <==> HasTable(m, d, q) || (k > 0 && p / ENTRIES <= q / ENTRIES <= (p + k - 1) / ENTRIES)))
  }

  /** Whether there is a table depends on the 4 MB only. */
  lemma SameTable4MB(m: Vm, d: nat, p: nat)
    requires Shape(m) && d < NFRAMES && p < ALLPAGES
    ensures forall q :: 0 <= q < ALLPAGES && q / ENTRIES == p / ENTRIES ==> (HasTable(m, d, q) <==> HasTable(m, d, p))
  {
  }

  lemma RangeTablesNext(m: Vm, n: Vm, r: Vm, d: nat, p: nat, k: nat)
    requires Shape(m) && Shape(n) && Shape(r) && d < NFRAMES && p + k < ALLPAGES && RangeTables(m, n, d, p, k)
    requires RangeTables(n, r, d, p + k, 1)
    ensures RangeTables(m, r, d, p, k + 1)
  {
    hide HasTable;
    SameTable4MB(m, d, p + k);
    assert Tables(n, d, p + k, p + k) == 0;
  }

  /** k pages from p on map the frames from f on; nothing else is mapped or unmapped. */
  ghost predicate KernelRange(m: Vm, n: Vm, d: nat, p: nat, k: nat, f: nat, perm: nat)
    requires f + k <= ALLPAGES && perm < PGSIZE - 1 && perm % 2 == 0
  {
    && Inv(m) && Inv(n) && Space(m, d) && Space(n, d) && Accounted(m, n, d, NFRAMES) && Untouched(m, n, d)
    && d < NFRAMES && p + k <= ALLPAGES && RangeTables(m, n, d, p, k)
    && (forall q :: 0 <= q < ALLPAGES ==>
          Pte(n, d, q) == if p <= q < p + k then Entry(f + (q - p), perm) else Pte(m, d, q))
  }

  lemma KernelPageMapped(m: Vm, d: nat, p: nat, f: nat, perm: nat)
    requires Inv(m) && Space(m, d) && USERPAGES <= p < ALLPAGES && (HasTable(m, d, p) || m.free != [])
    requires f < ALLPAGES && perm < PGSIZE - 1 && perm % 2 == 0 && perm % 8 < 4
    ensures KernelRange(m, PageMapped(m, d, p, f, perm), d, p, 1, f, perm)
  {
    hide Entry, Chained, Tabled, Paged, Guarded;
    var w := Walked(m, d, p);
    var e := Entry(f, perm);
    EntryBits(f, perm);
    WalkedKeeps(m, d, p);
    KernelMappedInv(w, d, p, e);
    SetPteTables(w, d, p, e);
    SetPteUntouched(w, d, p, e);
    SetPteAccounted(w, d, p, e);
    NoSuchFrame(m);
    NoSuchFrame(w);
    InvShape(m);
    hide Inv, Mapped, Pte, HasTable, Walked, SetPte, Belongs, Walks, RangeTables;
    OneTableMore(m, SetPte(w, d, p, e), d, p);
    UntouchedThen(m, w, SetPte(w, d, p, e), d, NFRAMES);
    AccountedThen(m, w, SetPte(w, d, p, e), d, NFRAMES);
  }

  lemma OneTableMore(m: Vm, n: Vm, d: nat, p: nat)
    requires Shape(m) && Shape(n) && d < NFRAMES && p < ALLPAGES
    requires |n.free| == |m.free| - (if HasTable(m, d, p) then 0 else 1)
    requires forall q :: 0 <= q < ALLPAGES ==> (HasTable(n, d, q) <==> HasTable(m, d, q) || q / ENTRIES == p / ENTRIES)
    ensures RangeTables(m, n, d, p, 1)
  {
    hide HasTable;
    assert Tables(m, d, p, p + 1) == if HasTable(m, d, p) then 0 else 1;
  }

  lemma NoSuchFrame(m: Vm)
    requires Inv(m)
    ensures NFRAMES !in m.free && NFRAMES !in m.role
  {
  }

  lemma KernelRangeNext(m: Vm, n: Vm, d: nat, p: nat, k: nat, f: nat, perm: nat)
    requires f + k < ALLPAGES && perm < PGSIZE - 1 && perm % 2 == 0 && perm % 8 < 4
    requires KernelRange(m, n, d, p, k, f, perm) && USERPAGES <= p && p + k < ALLPAGES
    requires HasTable(n, d, p + k) || n.free != []
    ensures KernelRange(m, PageMapped(n, d, p + k, f + k, perm), d, p, k + 1, f, perm)
  {
    hide Inv, Pte, HasTable, PageMapped, Belongs, Untouched, Accounted, Entry, RangeTables;
    var r := PageMapped(n, d, p + k, f + k, perm);
    KernelPageMapped(n, d, p + k, f + k, perm);
    KernelRangeThen(m, n, r, d);
    InvShape(m);
    InvShape(n);
    InvShape(r);
    RangeTablesNext(m, n, r, d, p, k);
  }

  lemma KernelRangeThen(m: Vm, n: Vm, r: Vm, d: nat)
    requires Inv(m) && Inv(n) && Inv(r)
    requires Untouched(m, n, d) && Untouched(n, r, d) && Accounted(m, n, d, NFRAMES) && Accounted(n, r, d, NFRAMES)
    ensures Untouched(m, r, d) && Accounted(m, r, d, NFRAMES)
  {
    NoSuchFrame(m);
    NoSuchFrame(n);
    UntouchedThen(m, n, r, d, NFRAMES);
    AccountedThen(m, n, r, d, NFRAMES);
  }

  lemma SetPteAccounted(m: Vm, d: nat, p: nat, w: Word)
    requires Inv(m) && Space(m, d) && p < ALLPAGES && HasTable(m, d, p)
    ensures Accounted(m, SetPte(m, d, p, w), d, NFRAMES)
  {
  }

  lemma TableAddedIs(m: Vm, d: nat, p: nat)
    requires Inv(m) && Space(m, d) && p < ALLPAGES && !HasTable(m, d, p) && m.free != []
    ensures m.free[0] < NFRAMES
    ensures var n := TableAdded(m, d, p);
            && Walked(m, d, p) == n && HasTable(n, d, p) && Inv(n)
            && FrameOf(Pde(n, d, p / ENTRIES)) == m.free[0]
  {
    var n := Walked(m, d, p);
  }

  lemma PageMappedInv(m: Vm, d: nat, p: nat, f: nat, perm: nat)
    requires Inv(m) && Space(m, d) && p < ALLPAGES && (HasTable(m, d, p) || m.free != []) && !Mapped(m, d, p)
    requires f < ALLPAGES && perm < PGSIZE - 1 && perm % 2 == 0 && (p < USERPAGES || perm % 8 < 4)
    requires p < USERPAGES ==> f in m.role && m.role[f] == Loose
    ensures (p < USERPAGES ==> f < NFRAMES) && Inv(PageMapped(m, d, p, f, perm))
    ensures Space(PageMapped(m, d, p, f, perm), d)
  {
    if p < USERPAGES {
      UserPageMapped(m, d, p, f, perm);
    } else {
      KernelPageMapped(m, d, p, f, perm);
    }
  }

  lemma KernelRangeNone(m: Vm, d: nat, p: nat, f: nat, perm: nat)
    requires Inv(m) && Space(m, d) && p < ALLPAGES && f < ALLPAGES && perm < PGSIZE - 1 && perm % 2 == 0
    ensures KernelRange(m, m, d, p, 0, f, perm)
  {
  }

  lemma KernelRangeIs(m: Vm, n: Vm, d: nat, p: nat, k: nat, f: nat, perm: nat)
    requires f + k <= ALLPAGES && perm < PGSIZE - 1 && perm % 2 == 0
    requires KernelRange(m, n, d, p, k, f, perm)
    ensures Space(m, d) && Space(n, d)
  {
  }

  lemma PteIs(m: Vm, d: nat, p: nat)
    requires Inv(m) && Space(m, d) && p < ALLPAGES
    ensures d < NFRAMES
    ensures HasTable(m, d, p) ==>
              && FrameOf(Pde(m, d, p / ENTRIES)) < NFRAMES
              && Pte(m, d, p) == m.frames[FrameOf(Pde(m, d, p / ENTRIES))][p % ENTRIES]
    ensures !HasTable(m, d, p) ==> Pte(m, d, p) == 0
  {
  }

  // ----- setupkvm -----

  /** The kernel part of every address space: entry for page q, 0 for user pages. */
  function KernelPte(data: nat, q: nat): Word
    requires q < ALLPAGES
  {
    if q < USERPAGES then 0
    else if q < USERPAGES + 256 then Entry(q - USERPAGES, PERM_W)
    else if q < USERPAGES + data then Entry(q - USERPAGES, 0)
    else if q < USERPAGES + NFRAMES then Entry(q - USERPAGES, PERM_W)
    else if q < DEVSPACE / PGSIZE then 0
    else Entry(q, PERM_W)
  }

  const DEVPAGE: nat := 1040384       // DEVSPACE / PGSIZE

  /** How many tables the kernel's mappings below page hi take: 56 for physical memory, 8 for devices. */
  function TablesBelow(hi: nat): (n: nat) {
    MemoryTables(hi) + DeviceTables(hi)
  }

  function MemoryTables(hi: nat): (n: nat)
    ensures n <= 56
  {
    if hi <= USERPAGES then 0
    else if hi < USERPAGES + NFRAMES then (hi - USERPAGES + ENTRIES - 1) / ENTRIES
    else 56
  }

  function DeviceTables(hi: nat): (n: nat)
    ensures n <= 8
  {
    if hi <= DEVPAGE then 0 else if hi < ALLPAGES then (hi - DEVPAGE + ENTRIES - 1) / ENTRIES else 8
  }

  /** Frames that setupkvm takes: the directory and the tables for the kernel part. */
  const KERNELFRAMES: nat := 65

  /** Page q lies in the 4 MB of one of those tables. */
  predicate KernelTable(hi: nat, q: nat) {
    || USERPAGES / ENTRIES <= q / ENTRIES < USERPAGES / ENTRIES + MemoryTables(hi)
    || DEVPAGE / ENTRIES <= q / ENTRIES < DEVPAGE / ENTRIES + DeviceTables(hi)
  }

  /** The kernel maps page p. */
  predicate KernelPage(p: nat) {
    USERPAGES <= p < USERPAGES + NFRAMES || DEVPAGE <= p < ALLPAGES
  }

  /** The new space has the tables for its pages below hi and no others, all from the free list. */
  ghost predicate SpaceTables(m: Vm, n: Vm, d: nat, hi: nat)
    requires Shape(n) && d < NFRAMES
  {
    && |n.free| + 1 + TablesBelow(hi) == |m.free|
    && (forall q :: 0 <= q < ALLPAGES ==> (HasTable(n, d, q) <==> KernelTable(hi, q)))
  }

  /** The next page of the kernel needs a table if it starts its 4 MB. */
  lemma KernelTableNext(hi: nat, p: nat, k: nat)
    requires hi == p + k && KernelPage(p) && KernelPage(hi)
    requires p < USERPAGES + NFRAMES ==> hi < USERPAGES + NFRAMES
    ensures TablesBelow(hi + 1) == TablesBelow(hi) + if hi % ENTRIES == 0 then 1 else 0
    ensures !KernelTable(p, hi) && (k == 0 || hi % ENTRIES == 0) <==> hi % ENTRIES == 0
    ensures KernelTable(hi, hi) <==> hi % ENTRIES != 0
    ensures hi % ENTRIES == 0 ==> TablesBelow(hi) < 64
  {
  }

  lemma {:induction false} TablesCount(m: Vm, b: Vm, d: nat, p: nat, k: nat)
    requires Shape(b) && d < NFRAMES && SpaceTables(m, b, d, p) && KernelPage(p) && p + k <= ALLPAGES
    requires p < USERPAGES + NFRAMES ==> p + k <= USERPAGES + NFRAMES
    ensures TablesBelow(p) + Tables(b, d, p, p + k) == TablesBelow(p + k)
  {
    hide HasTable, TablesBelow, KernelTable;
    if k > 0 {
      TablesCount(m, b, d, p, k - 1);
      KernelTableNext(p + k - 1, p, k - 1);
    }
  }

  lemma KernelTableAfter(p: nat, k: nat, q: nat)
    requires KernelPage(p) && p + k <= ALLPAGES && 0 < k
    requires p < USERPAGES + NFRAMES ==> p + k <= USERPAGES + NFRAMES
    ensures KernelTable(p + k, q) <==> KernelTable(p, q) || p / ENTRIES <= q / ENTRIES <= (p + k - 1) / ENTRIES
  {
  }

  lemma SpaceTablesNext(m: Vm, b: Vm, n: Vm, d: nat, p: nat, k: nat)
    requires Shape(m) && Shape(b) && Shape(n) && d < NFRAMES && SpaceTables(m, b, d, p) && KernelPage(p)
    requires p + k <= ALLPAGES && (p < USERPAGES + NFRAMES ==> p + k <= USERPAGES + NFRAMES)
    requires RangeTables(b, n, d, p, k)
    ensures SpaceTables(m, n, d, p + k)
  {
    hide HasTable, TablesBelow, KernelTable;
    TablesCount(m, b, d, p, k);
    if k > 0 {
      forall q | 0 <= q < ALLPAGES ensures HasTable(n, d, q) <==> KernelTable(p + k, q) {
        KernelTableAfter(p, k, q);
      }
    }
  }

  /** Nothing is mapped between physical memory and the devices. */
  lemma SpaceTablesGap(m: Vm, n: Vm, d: nat, p: nat, hi: nat)
    requires Shape(n) && d < NFRAMES && SpaceTables(m, n, d, p)
    requires p == hi || (p == USERPAGES + NFRAMES && hi == DEVPAGE)
    ensures SpaceTables(m, n, d, hi)
  {
    hide HasTable;
  }

  /** d is a new space that has the kernel's mappings below page hi. */
  ghost predicate PartSpace(m: Vm, n: Vm, d: nat, data: nat, hi: nat)
    requires Inv(m) && Inv(n)
  {
    && d !in m.role && d in m.free && Space(n, d) && Accounted(m, n, d, NFRAMES) && Untouched(m, n, d)
    && d < NFRAMES && SpaceTables(m, n, d, hi)
    && (forall q :: 0 <= q < ALLPAGES ==> Pte(n, d, q) == if q < hi then KernelPte(data, q) else 0)
  }

  /** d is a new space with exactly the kernel's mappings. */
  ghost predicate MadeSpace(m: Vm, n: Vm, d: nat, data: nat)
    requires Inv(m) && Inv(n)
  {
    PartSpace(m, n, d, data, ALLPAGES)
  }

  lemma MadeTakes(m: Vm, n: Vm, d: nat, data: nat)
    requires Inv(m) && Inv(n) && MadeSpace(m, n, d, data)
    ensures |m.free| == |n.free| + KERNELFRAMES && d < NFRAMES
    ensures forall q :: 0 <= q < USERPAGES ==> !HasTable(n, d, q)
  {
  }

  lemma SpaceStarted(m: Vm, data: nat)
    requires Inv(m) && m.free != [] && m.free[0] < NFRAMES
    ensures var n := WithRole(SetFrame(Popped(m), m.free[0], ZeroPage()), m.free[0], Dir);
            Inv(n) && Space(n, m.free[0]) && m.free[0] !in m.role && PartSpace(m, n, m.free[0], data, USERPAGES)
  {
    var d := m.free[0];
    var z := SetFrame(Popped(m), d, ZeroPage());
    PoppedInv(m);
    PlainWrite(Popped(m), d, ZeroPage());
    DirMade(z, d);
    NotBelongs(m, d);
    hide Chained, Tabled, Paged, Guarded, Pte, Belongs, Walks;
    SpaceStartedFrames(m);
    SpaceStartedTables(m);
  }

  lemma SpaceStartedFrames(m: Vm)
    requires Shape(m) && Chained(m) && Disjoint(m) && m.free != [] && m.free[0] < NFRAMES
    requires forall x :: !Walks(m, x, m.free[0])
    ensures var n := WithRole(SetFrame(Popped(m), m.free[0], ZeroPage()), m.free[0], Dir);
            Accounted(m, n, m.free[0], NFRAMES) && Untouched(m, n, m.free[0])
  {
    var d := m.free[0];
    var n := WithRole(SetFrame(Popped(m), d, ZeroPage()), d, Dir);
    assert m.free == [d] + n.free;
    assert Belongs(n, d, d);
    hide Belongs, Walks;
  }

  lemma SpaceStartedTables(m: Vm)
    requires Shape(m) && m.free != [] && m.free[0] < NFRAMES && Chained(m)
    ensures SpaceTables(m, WithRole(SetFrame(Popped(m), m.free[0], ZeroPage()), m.free[0], Dir), m.free[0], USERPAGES)
  {
  }

  lemma NotBelongs(m: Vm, d: nat)
    requires Inv(m) && d !in m.role
    ensures forall x :: !Walks(m, x, d) && !Belongs(m, x, d)
  {
  }

  /** mappages changed only what it was asked for, so pages above hi are still unmapped. */
  lemma NothingThere(m: Vm, b: Vm, n: Vm, d: nat, data: nat, p: nat, k: nat, f: nat, perm: nat)
    requires Inv(m) && Inv(b) && PartSpace(m, b, d, data, p)
    requires f + k <= ALLPAGES && perm < PGSIZE - 1 && perm % 2 == 0 && KernelRange(b, n, d, p, k, f, perm)
    ensures Inv(n) && Space(n, d) && Accounted(m, n, d, NFRAMES) && Untouched(m, n, d)
    ensures d < NFRAMES && d !in m.role && (p + k < ALLPAGES ==> !Mapped(n, d, p + k))
  {
    hide Accounted, Untouched, Pte, Belongs, HasTable, Chained, Tabled, Paged, Guarded, Disjoint, KernelPte, Entry,
      Mapped;
    KernelRangeThen(m, b, n, d);
    InvShape(n);
    if p + k < ALLPAGES {
      MappedIff(n, d, p + k);
    }
  }

  lemma SpaceExtended(m: Vm, b: Vm, n: Vm, d: nat, data: nat, p: nat, k: nat, f: nat, perm: nat, hi: nat)
    requires Inv(m) && Inv(b) && PartSpace(m, b, d, data, p) && p + k <= hi <= ALLPAGES
    requires f + k <= ALLPAGES && perm < PGSIZE - 1 && perm % 2 == 0 && KernelRange(b, n, d, p, k, f, perm)
    requires forall q :: p <= q < hi ==> KernelPte(data, q) == if q < p + k then Entry(f + (q - p), perm) else 0
    requires Stretch(p, k, hi)
    ensures Inv(n) && PartSpace(m, n, d, data, hi)
  {
    hide Accounted, Untouched, Pte, Belongs, Inv, RangeTables, SpaceTables;
    NothingThere(m, b, n, d, data, p, k, f, perm);
    InvShape(m);
    InvShape(b);
    InvShape(n);
    SpaceTablesNext(m, b, n, d, p, k);
    SpaceTablesGap(m, n, d, p + k, hi);
    hide KernelPte;
  }

  /** The k pages from p on are the kernel's, and it maps no other page below hi. */
  predicate Stretch(p: nat, k: nat, hi: nat) {
    && KernelPage(p) && p + k <= hi <= ALLPAGES
    && (p < USERPAGES + NFRAMES ==> p + k <= USERPAGES + NFRAMES)
    && (p + k == hi || (p + k == USERPAGES + NFRAMES && hi == DEVPAGE))
  }

  /** A half-made space is left behind; nothing that was in use before has changed. */
  lemma SpaceDropped(m: Vm, n: Vm, d: nat)
    requires Inv(m) && Inv(n) && d !in m.role && Untouched(m, n, d)
    ensures forall x :: x in m.role ==>
              x in n.role && n.role[x] == m.role[x] && x < NFRAMES && n.frames[x] == m.frames[x]
  {
    NotBelongs(m, d);
  }

  /** kmap: virt, phys_start, phys_end (0 for 4 GB), perm. */
  function Kmap(data: nat, j: nat): (k: (Word, Word, Word, nat))
    requires j < 4 && 256 < data < NFRAMES
  {
    match j
    case 0 => (KERNBASE, 0, 256 * PGSIZE, PERM_W)
    case 1 => (Ptr(256), 256 * PGSIZE, data * PGSIZE, 0)
    case 2 => (Ptr(data), data * PGSIZE, NFRAMES * PGSIZE, PERM_W)
    case 3 => (DEVSPACE, DEVSPACE, 0, PERM_W)
  }

  function PartStart(data: nat, j: nat): (p: nat)
    requires j <= 4 && 256 < data < NFRAMES
    ensures p <= ALLPAGES
  {
    if j < 4 then Kmap(data, j).0 / PGSIZE else ALLPAGES
  }

  /** Entry j of kmap maps what KernelPte says, up to where the next one starts. */
  lemma KmapIs(data: nat, j: nat)
    requires j < 4 && 256 < data < NFRAMES
    ensures var (virt, start, end, perm) := Kmap(data, j);
            var p, size := virt / PGSIZE, (end - start) % (ALLPAGES * PGSIZE);
            && 0 < size && virt % PGSIZE == 0 && start % PGSIZE == 0 && Pages(virt, size) == size / PGSIZE
            && Stretch(p, Pages(virt, size), PartStart(data, j + 1))
            && forall q :: p <= q < PartStart(data, j + 1) ==>
                 KernelPte(data, q) == if q < p + Pages(virt, size) then Entry(start / PGSIZE + (q - p), perm) else 0
  {
  }

  /** Having mapped k of the n pages of such an entry: mappages can only have stopped for want of a frame,
      and then there were too few for a whole space. */
  lemma KernelPart(m: Vm, b: Vm, r: Vm, d: nat, data: nat, p: nat, k: nat, f: nat, perm: nat, n: nat, hi: nat)
    requires Inv(m) && Inv(b) && PartSpace(m, b, d, data, p) && Stretch(p, n, hi)
    requires k <= n && f + n <= ALLPAGES && perm < PGSIZE - 1 && perm % 2 == 0
    requires KernelRange(b, r, d, p, k, f, perm)
    requires forall q :: p <= q < hi ==> KernelPte(data, q) == if q < p + n then Entry(f + (q - p), perm) else 0
    ensures Inv(r) && Space(r, d) && d < NFRAMES && Untouched(m, r, d)
    ensures k < n ==> !Mapped(r, d, p + k)
    ensures k < n && !HasTable(r, d, p + k) && r.free == [] ==> |m.free| < KERNELFRAMES
    ensures k == n ==> PartSpace(m, r, d, data, hi)
  {
    hide PartSpace, KernelRange, Untouched, Inv, Mapped, KernelPte, HasTable;
    NothingThere(m, b, r, d, data, p, k, f, perm);
    if k == n {
      SpaceExtended(m, b, r, d, data, p, k, f, perm, hi);
    } else {
      StoppedShort(m, b, r, d, data, p, k, f, perm, n, hi);
    }
  }

  lemma StoppedShort(m: Vm, b: Vm, r: Vm, d: nat, data: nat, p: nat, k: nat, f: nat, perm: nat, n: nat, hi: nat)
    requires Inv(m) && Inv(b) && PartSpace(m, b, d, data, p) && Stretch(p, n, hi)
    requires k < n && f + n <= ALLPAGES && perm < PGSIZE - 1 && perm % 2 == 0
    requires KernelRange(b, r, d, p, k, f, perm)
    ensures d < NFRAMES && Shape(r)
    ensures !HasTable(r, d, p + k) && r.free == [] ==> |m.free| < KERNELFRAMES
  {
    hide Accounted, Untouched, Pte, HasTable, KernelPte, RangeTables, Inv, TablesBelow, KernelTable;
    InvShape(m);
    InvShape(b);
    InvShape(r);
    SpaceTablesNext(m, b, r, d, p, k);
    KernelTableNext(p + k, p, k);
  }
}
