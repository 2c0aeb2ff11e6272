/** What deallocuvm frees: the pages its walk meets, and which mapped pages it can stride over. */
module PageFreeing {
  import opened PageTables
  import opened PageSteps
  import opened PageUses

  predicate TableAt(m: Vm, d: nat, i: nat)
    requires Shape(m) && d < NFRAMES && i < ENTRIES
  {
    HasTable(m, d, i * ENTRIES)
  }

  /** Page p lies before the offset at which the walk from lo, having seen no table at all yet,
      enters p's table: it moves by 4 MB, not to the next 4 MB boundary. */
  ghost predicate Skipped(m: Vm, d: nat, lo: nat, p: nat)
    requires Shape(m) && d < NFRAMES && p < ALLPAGES
  {
    && lo / ENTRIES < p / ENTRIES && p % ENTRIES < lo % ENTRIES
    && (forall i :: lo / ENTRIES <= i < p / ENTRIES ==> !TableAt(m, d, i))
  }

  /** x is a user page of d in [lo, a) that the walk meets. */
  ghost predicate Goes(m: Vm, d: nat, lo: nat, a: nat, x: nat)
    requires Shape(m) && d < NFRAMES
  {
    x in m.role && m.role[x].User? && m.role[x].d == d &&
    lo <= m.role[x].p < a && m.role[x].p < ALLPAGES && !Skipped(m, d, lo, m.role[x].p)
  }

  /** Exactly those pages have been freed and unmapped. */
  ghost predicate Freed(m: Vm, n: Vm, d: nat, lo: nat, a: nat)
    requires Inv(m) && Space(m, d)
  {
    Inv(n) && Space(n, d) && EntriesCleared(m, n, d, lo, a) && FramesFreed(m, n, d, lo, a)
  }

  ghost predicate EntriesCleared(m: Vm, n: Vm, d: nat, lo: nat, a: nat)
    requires Shape(m) && Shape(n) && d < NFRAMES
  {
    && (forall q :: 0 <= q < USERPAGES ==>
          Pte(n, d, q) == if lo <= q < a && Mapped(m, d, q) && !Skipped(m, d, lo, q) then 0 else Pte(m, d, q))
    && (forall q :: 0 <= q < ALLPAGES ==> (HasTable(n, d, q) <==> HasTable(m, d, q)))
  }

  ghost predicate FramesFreed(m: Vm, n: Vm, d: nat, lo: nat, a: nat)
    requires Shape(m) && Shape(n) && d < NFRAMES
  {
    && (forall x: nat :: x in n.free <==> x in m.free || Goes(m, d, lo, a, x))
    && (forall x: nat :: x in n.role <==> x in m.role && !Goes(m, d, lo, a, x))
    && (forall x: nat :: x in n.role ==> n.role[x] == m.role[x])
    && (forall x: nat :: x in n.role && x < NFRAMES && !(n.role[x].Table? && n.role[x].d == d) ==>
          n.frames[x] == m.frames[x])
  }

  lemma FreedKeptBut(m: Vm, n: Vm, d: nat, lo: nat, a: nat)
    requires Shape(m) && Shape(n) && d < NFRAMES && FramesFreed(m, n, d, lo, a)
    ensures KeptBut(m, n, d)
  {
    hide Skipped;
  }

  /** From a page whose table is there the walk goes to the next page, and has skipped none since. */
  lemma WalkOn(m: Vm, d: nat, a: nat, q: nat)
    requires Shape(m) && d < NFRAMES && a < q < ALLPAGES && HasTable(m, d, a)
    ensures !Skipped(m, d, a, q) && !Skipped(m, d, a + 1, q)
  {
    assert TableAt(m, d, a / ENTRIES);
  }

  /** From a page without a table it goes to the same offset of the next table. */
  lemma WalkOver(m: Vm, d: nat, a: nat, q: nat)
    requires Shape(m) && d < NFRAMES && a <= q < ALLPAGES && !HasTable(m, d, a)
    ensures q / ENTRIES == a / ENTRIES ==> !HasTable(m, d, q)
    ensures q < a + ENTRIES && q / ENTRIES != a / ENTRIES ==> Skipped(m, d, a, q)
    ensures a + ENTRIES <= q ==> (Skipped(m, d, a, q) <==> Skipped(m, d, a + ENTRIES, q))
  {
    assert !TableAt(m, d, a / ENTRIES);
  }

  /** The walk stands at page a: what it will skip from here is what it skips from lo. */
  ghost predicate WalkAt(m: Vm, d: nat, lo: nat, a: nat)
    requires Shape(m) && d < NFRAMES
  {
    lo <= a && forall q :: a <= q < ALLPAGES ==> (Skipped(m, d, lo, q) <==> Skipped(m, d, a, q))
  }

  lemma WalkNext(m: Vm, d: nat, lo: nat, a: nat)
    requires Shape(m) && d < NFRAMES && a < ALLPAGES && WalkAt(m, d, lo, a)
    ensures HasTable(m, d, a) ==> WalkAt(m, d, lo, a + 1)
    ensures !HasTable(m, d, a) ==> WalkAt(m, d, lo, a + ENTRIES)
    ensures !HasTable(m, d, a) ==>
              forall q :: a <= q < a + ENTRIES && q < ALLPAGES ==> !HasTable(m, d, q) || Skipped(m, d, lo, q)
    ensures !Skipped(m, d, lo, a)
  {
    hide Skipped, HasTable;
    SkipsNotItself(m, d, a);
    if HasTable(m, d, a) {
      forall q | a < q < ALLPAGES ensures Skipped(m, d, lo, q) <==> Skipped(m, d, a + 1, q) {
        WalkOn(m, d, a, q);
      }
    } else {
      forall q | a <= q < ALLPAGES
        ensures q < a + ENTRIES ==> !HasTable(m, d, q) || Skipped(m, d, lo, q)
        ensures a + ENTRIES <= q ==> (Skipped(m, d, lo, q) <==> Skipped(m, d, a + ENTRIES, q))
      {
        WalkOver(m, d, a, q);
      }
    }
  }

  lemma SkipsNotItself(m: Vm, d: nat, a: nat)
    requires Shape(m) && d < NFRAMES && a < ALLPAGES
    ensures !Skipped(m, d, a, a)
  {
  }

  lemma FreedNone(m: Vm, d: nat, lo: nat)
    requires Inv(m) && Space(m, d)
    ensures Freed(m, m, d, lo, lo)
  {
    hide Skipped;
  }

  /** Nothing to free from a to b. */
  lemma FreedOver(m: Vm, n: Vm, d: nat, lo: nat, a: nat, b: nat)
    requires Inv(m) && Space(m, d) && d < NFRAMES && Freed(m, n, d, lo, a) && a <= b <= USERPAGES
    requires forall q :: a <= q < b ==> !Mapped(m, d, q) || Skipped(m, d, lo, q)
    ensures Freed(m, n, d, lo, b)
  {
    GoesSame(m, d, lo, a, b);
    hide Skipped, Inv, HasTable, Pte, Mapped, Goes, EntriesCleared, FramesFreed;
    InvShape(m);
    InvShape(n);
    OverCleared(m, n, d, lo, a, b);
    OverFreed(m, n, d, lo, a, b);
  }

  lemma OverFreed(m: Vm, n: Vm, d: nat, lo: nat, a: nat, b: nat)
    requires Shape(m) && Shape(n) && d < NFRAMES && FramesFreed(m, n, d, lo, a)
    requires forall x: nat :: Goes(m, d, lo, a, x) <==> Goes(m, d, lo, b, x)
    ensures FramesFreed(m, n, d, lo, b)
  {
    hide Goes;
  }

  lemma OverCleared(m: Vm, n: Vm, d: nat, lo: nat, a: nat, b: nat)
    requires Shape(m) && Shape(n) && d < NFRAMES && EntriesCleared(m, n, d, lo, a) && a <= b <= USERPAGES
    requires forall q :: a <= q < b ==> !Mapped(m, d, q) || Skipped(m, d, lo, q)
    ensures EntriesCleared(m, n, d, lo, b)
  {
    hide Skipped, HasTable, Pte, Mapped;
  }

  lemma GoesSame(m: Vm, d: nat, lo: nat, a: nat, b: nat)
    requires Inv(m) && Space(m, d) && d < NFRAMES && a <= b <= USERPAGES
    requires forall q :: a <= q < b ==> !Mapped(m, d, q) || Skipped(m, d, lo, q)
    ensures forall x: nat :: Goes(m, d, lo, a, x) <==> Goes(m, d, lo, b, x)
  {
    OnlyMapped(m, d);
    hide Skipped, HasTable, Pte, Mapped;
  }

  lemma OnlyMapped(m: Vm, d: nat)
    requires Inv(m) && Space(m, d)
    ensures forall x :: x in m.role && m.role[x].User? && m.role[x].d == d ==>
              m.role[x].p < USERPAGES && Mapped(m, d, m.role[x].p) && FrameOf(Pte(m, d, m.role[x].p)) == x
  {
    forall x | x in m.role && m.role[x].User? && m.role[x].d == d
      ensures m.role[x].p < USERPAGES && Mapped(m, d, m.role[x].p) && FrameOf(Pte(m, d, m.role[x].p)) == x
    {
      assert m.role[x] == User(d, m.role[x].p);
    }
  }

  lemma MappedRole(m: Vm, d: nat, p: nat)
    requires Inv(m) && Space(m, d) && p < USERPAGES && Mapped(m, d, p)
    ensures FrameOf(Pte(m, d, p)) in m.role && m.role[FrameOf(Pte(m, d, p))] == User(d, p)
  {
  }

  /** One page freed and unmapped. */
  lemma PageFreedKeeps(m: Vm, d: nat, p: nat)
    requires Inv(m) && Space(m, d) && p < USERPAGES && Mapped(m, d, p)
    ensures FrameOf(Pte(m, d, p)) in m.role && FrameOf(Pte(m, d, p)) < NFRAMES && d < NFRAMES && HasTable(m, d, p)
    ensures var f := FrameOf(Pte(m, d, p)); var n := Pushed(Unmapped(m, d, p), f);
            && Inv(n) && Space(n, d) && m.role[f] == User(d, p)
            && n.free == [f] + m.free && n.role == m.role - {f}
            && (forall q :: 0 <= q < ALLPAGES ==>
                  && Pte(n, d, q) == (if q == p then 0 else Pte(m, d, q))
                  && (HasTable(n, d, q) <==> HasTable(m, d, q)))
            && (forall x: nat :: x in n.role && x < NFRAMES && n.role[x] != Table(d, p / ENTRIES) ==>
                  n.frames[x] == m.frames[x])
  {
    PageFreed(m, d, p);
    SetPteTables(m, d, p, 0);
    UnmappedInv(m, d, p);
    TableRole(m, d, p);
    var f := FrameOf(Pte(m, d, p));
    PushedInv(Unmapped(m, d, p), f);
    hide Inv, HasTable, Pte, Mapped;
  }

  /** The page at a is mapped still if it was; freeing it takes the walk one page further. */
  lemma FreedNext(m: Vm, n: Vm, d: nat, lo: nat, a: nat)
    requires Inv(m) && Space(m, d) && Freed(m, n, d, lo, a) && lo <= a < USERPAGES
    requires Mapped(m, d, a) && !Skipped(m, d, lo, a)
    ensures Pte(n, d, a) == Pte(m, d, a) && Mapped(n, d, a) && HasTable(n, d, a) && FrameOf(Pte(n, d, a)) < NFRAMES
    ensures Freed(m, Pushed(Unmapped(n, d, a), FrameOf(Pte(n, d, a))), d, lo, a + 1)
  {
    OnlyMapped(m, d);
    MappedIff(m, d, a);
    MappedIff(n, d, a);
    InvShape(m);
    InvShape(n);
    PageFreedKeeps(n, d, a);
    var f := FrameOf(Pte(n, d, a));
    GoesNext(m, d, lo, a, f);
    hide Skipped, Inv, HasTable, Pte, Mapped, Unmapped, Pushed, Goes;
    FreedBy(m, n, Pushed(Unmapped(n, d, a), f), d, lo, a, f);
  }

  lemma GoesNext(m: Vm, d: nat, lo: nat, a: nat, f: nat)
    requires Inv(m) && Space(m, d) && lo <= a < USERPAGES
    requires Mapped(m, d, a) && !Skipped(m, d, lo, a) && f == FrameOf(Pte(m, d, a))
    ensures forall x: nat :: Goes(m, d, lo, a + 1, x) <==> Goes(m, d, lo, a, x) || x == f
  {
    OnlyMapped(m, d);
    MappedRole(m, d, a);
    hide Skipped, HasTable, Pte, Mapped, Inv;
    forall x: nat ensures Goes(m, d, lo, a + 1, x) <==> Goes(m, d, lo, a, x) || x == f {
      if x in m.role && m.role[x] == User(d, a) {
        assert x == f;
      }
    }
  }

  lemma FreedBy(m: Vm, n: Vm, r: Vm, d: nat, lo: nat, a: nat, f: nat)
    requires Inv(m) && Space(m, d) && Freed(m, n, d, lo, a) && lo <= a < USERPAGES
    requires forall x: nat :: Goes(m, d, lo, a + 1, x) <==> Goes(m, d, lo, a, x) || x == f
    requires Mapped(m, d, a) && !Skipped(m, d, lo, a)
    requires Inv(r) && Space(r, d) && r.free == [f] + n.free && r.role == n.role - {f}
    requires forall q :: 0 <= q < ALLPAGES ==> Pte(r, d, q) == (if q == a then 0 else Pte(n, d, q))
    requires forall q :: 0 <= q < ALLPAGES ==> (HasTable(r, d, q) <==> HasTable(n, d, q))
    requires forall x: nat :: x in r.role && x < NFRAMES && r.role[x] != Table(d, a / ENTRIES) ==>
               r.frames[x] == n.frames[x]
    ensures Freed(m, r, d, lo, a + 1)
  {
    InvShape(m);
    InvShape(n);
    InvShape(r);
    hide Inv, Skipped, HasTable, Pte, Mapped, Goes, FramesFreed, EntriesCleared;
    EntriesClearedBy(m, n, r, d, lo, a);
    FramesFreedBy(m, n, r, d, lo, a, f);
  }

  lemma EntriesClearedBy(m: Vm, n: Vm, r: Vm, d: nat, lo: nat, a: nat)
    requires Shape(m) && Shape(n) && Shape(r) && d < NFRAMES && EntriesCleared(m, n, d, lo, a) && lo <= a < USERPAGES
    requires Mapped(m, d, a) && !Skipped(m, d, lo, a)
    requires forall q :: 0 <= q < ALLPAGES ==> Pte(r, d, q) == (if q == a then 0 else Pte(n, d, q))
    requires forall q :: 0 <= q < ALLPAGES ==> (HasTable(r, d, q) <==> HasTable(n, d, q))
    ensures EntriesCleared(m, r, d, lo, a + 1)
  {
    hide Skipped, HasTable, Pte, Mapped;
  }

  lemma FramesFreedBy(m: Vm, n: Vm, r: Vm, d: nat, lo: nat, a: nat, f: nat)
    requires Shape(m) && Shape(n) && Shape(r) && d < NFRAMES && FramesFreed(m, n, d, lo, a)
    requires forall x: nat :: Goes(m, d, lo, a + 1, x) <==> Goes(m, d, lo, a, x) || x == f
    requires r.free == [f] + n.free && r.role == n.role - {f}
    requires forall x: nat :: x in r.role && x < NFRAMES && r.role[x] != Table(d, a / ENTRIES) ==>
               r.frames[x] == n.frames[x]
    ensures FramesFreed(m, r, d, lo, a + 1)
  {
    hide Goes;
  }

  lemma WalkStarts(m: Vm, d: nat, lo: nat)
    requires Shape(m) && d < NFRAMES
    ensures WalkAt(m, d, lo, lo)
  {
  }

  /** What the walk finds at page p is what was there at the start. */
  lemma FreedIs(m: Vm, n: Vm, d: nat, lo: nat, p: nat)
    requires Inv(m) && Space(m, d) && Freed(m, n, d, lo, p) && lo <= p < USERPAGES
    ensures Inv(n) && Space(n, d) && d < NFRAMES
    ensures (HasTable(n, d, p) <==> HasTable(m, d, p)) && (Mapped(n, d, p) <==> Mapped(m, d, p))
  {
    hide HasTable, Pte;
  }

  lemma NothingMapped(m: Vm, d: nat)
    requires Inv(m) && Space(m, d)
    ensures forall q :: 0 <= q < ALLPAGES && Mapped(m, d, q) ==> HasTable(m, d, q)
  {
  }

  /** A page whose table is there: freed if it is mapped. */
  lemma FreedOn(m: Vm, n: Vm, r: Vm, d: nat, lo: nat, p: nat)
    requires Inv(m) && Space(m, d) && d < NFRAMES && Freed(m, n, d, lo, p) && lo <= p < USERPAGES
    requires !Skipped(m, d, lo, p)
    requires Inv(n) && HasTable(n, d, p)
    requires !Mapped(n, d, p) ==> r == n
    requires Mapped(n, d, p) ==>
               FrameOf(Pte(n, d, p)) < NFRAMES && r == Pushed(Unmapped(n, d, p), FrameOf(Pte(n, d, p)))
    ensures Freed(m, r, d, lo, p + 1)
  {
    hide Inv, HasTable, Pte, Mapped, Freed, Unmapped, Pushed, Skipped, SetPte;
    InvShape(m);
    InvShape(n);
    FreedIs(m, n, d, lo, p);
    if Mapped(m, d, p) {
      FreedNext(m, n, d, lo, p);
    } else {
      FreedOver(m, n, d, lo, p, p + 1);
    }
  }
}
