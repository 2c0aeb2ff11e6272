/** Giving up a whole address space: user pages, then tables, then the directory. */
module SpaceFreeing {
  import opened PageTables
  import opened PageSteps
  import opened PageUses
  import opened PageFreeing

  // ----- when deallocuvm is exact -----

  /** The user pages of d are the first n. */
  ghost predicate Prefix(m: Vm, d: nat, n: nat)
    requires Shape(m) && d < NFRAMES
  {
    n <= USERPAGES && forall p :: 0 <= p < USERPAGES ==> (Mapped(m, d, p) <==> p < n)
  }

  /** In the range asked for, what stays mapped is exactly what was stridden over. */
  lemma DeallocExact(m: Vm, n: Vm, d: nat, lo: nat, hi: nat, p: nat)
    requires Inv(m) && Space(m, d) && Freed(m, n, d, lo, hi) && p < USERPAGES
    ensures d < NFRAMES
    ensures Mapped(n, d, p) <==> Mapped(m, d, p) && (lo <= p < hi ==> Skipped(m, d, lo, p))
  {
    hide Skipped, HasTable, Pte;
  }

  /** In a space without holes nothing is, nor from a 4 MB boundary on. */
  lemma NothingSkipped(m: Vm, d: nat, lo: nat, n: nat, p: nat)
    requires Shape(m) && d < NFRAMES && lo <= p < USERPAGES && Mapped(m, d, p)
    requires Prefix(m, d, n) || lo % ENTRIES == 0
    ensures !Skipped(m, d, lo, p)
  {
    if Prefix(m, d, n) {
      assert Mapped(m, d, lo);
      assert TableAt(m, d, lo / ENTRIES);
    }
  }

  /** So a space without holes ends up with just the pages below lo. */
  lemma PrefixShrinks(m: Vm, n: Vm, d: nat, lo: nat, hi: nat, k: nat)
    requires Inv(m) && Space(m, d) && Freed(m, n, d, lo, hi) && lo <= hi
    requires d < NFRAMES && Prefix(m, d, k) && k <= hi
    ensures Prefix(n, d, if lo < k then lo else k)
  {
    hide Freed, Skipped, Mapped, HasTable, Pte;
    FreedInv(m, n, d, lo, hi);
    forall p | 0 <= p < USERPAGES ensures Mapped(n, d, p) <==> p < (if lo < k then lo else k) {
      DeallocExact(m, n, d, lo, hi, p);
      if lo <= p < k {
        NothingSkipped(m, d, lo, k, p);
      }
    }
  }

  lemma FreedInv(m: Vm, n: Vm, d: nat, lo: nat, hi: nat)
    requires Inv(m) && Space(m, d) && Freed(m, n, d, lo, hi)
    ensures Inv(n) && Space(n, d) && d < NFRAMES
  {
  }

  /** deallocuvm(pgdir, KERNBASE, 0) leaves no user page. */
  lemma AllUserPagesFreed(m: Vm, n: Vm, d: nat)
    requires Inv(m) && Space(m, d) && Freed(m, n, d, 0, USERPAGES)
    ensures forall x: nat :: x in n.free <==> x in m.free || (x in m.role && m.role[x].User? && m.role[x].d == d)
    ensures forall x: nat :: x in n.role <==> x in m.role && !(m.role[x].User? && m.role[x].d == d)
    ensures forall x: nat :: x in n.role ==> n.role[x] == m.role[x]
  {
    OnlyMapped(m, d);
    forall x: nat ensures Goes(m, d, 0, USERPAGES, x) <==> x in m.role && m.role[x].User? && m.role[x].d == d {
    }
  }

  // ----- the rest of freevm -----

  ghost predicate TableBelow(m: Vm, d: nat, i: nat, x: nat) {
    x in m.role && m.role[x].Table? && m.role[x].d == d && m.role[x].i < i
  }

  /** With its role given up, the tables for directory entries below i have been freed. */
  ghost predicate TablesFreed(m: Vm, n: Vm, d: nat, i: nat)
    requires Shape(m) && Shape(n) && d < NFRAMES
  {
    && d in n.role && n.frames[d] == m.frames[d]
    && (forall x: nat :: x in n.free <==> x in m.free || TableBelow(m, d, i, x))
    && (forall x: nat :: x in n.role <==> x in m.role && !TableBelow(m, d, i, x))
    && (forall x: nat :: x in n.role ==> n.role[x] == if Belongs(m, x, d) then Loose else m.role[x])
    && (forall x: nat :: x in n.role && x < NFRAMES ==> n.frames[x] == m.frames[x])
  }

  /** The free list has got every frame of d and nothing else; all other frames are as they were. */
  ghost predicate SpaceFreed(m: Vm, n: Vm, d: nat)
    requires Shape(m) && Shape(n)
  {
    && (forall x: nat :: x in n.free <==> x in m.free || Belongs(m, x, d))
    && (forall x: nat :: x in n.role <==> x in m.role && !Belongs(m, x, d))
    && (forall x: nat :: x in n.role ==> n.role[x] == m.role[x])
    && (forall x: nat :: x in n.role && x < NFRAMES ==> n.frames[x] == m.frames[x])
  }

  lemma FreedKept(m: Vm, n: Vm, d: nat)
    requires Shape(m) && Shape(n) && SpaceFreed(m, n, d)
    ensures KeptBut(m, n, d)
  {
    hide Belongs;
  }

  lemma TablesFreedNext(m: Vm, n: Vm, d: nat, i: nat)
    requires Inv(m) && Inv(n) && Space(m, d) && i < ENTRIES && d < NFRAMES && TablesFreed(m, n, d, i)
    ensures !Present(n.frames[d][i]) ==> TablesFreed(m, n, d, i + 1)
    ensures Present(n.frames[d][i]) ==>
              var t := FrameOf(n.frames[d][i]);
              m.first <= t < NFRAMES && t in n.role && n.role[t] == Loose &&
              Inv(Pushed(n, t)) && TablesFreed(m, Pushed(n, t), d, i + 1)
  {
    hide Chained, Paged, Guarded;
    assert n.frames[d][i] == Pde(m, d, i);
    if Present(n.frames[d][i]) {
      var t := FrameOf(n.frames[d][i]);
      assert m.role[t] == Table(d, i);
      OneTable(m, d, i, t);
      assert Belongs(m, t, d);
      PushedInv(n, t);
      TableFreed(m, n, Pushed(n, t), d, i, t);
      hide Tabled, Guarded, Inv, Belongs, TableBelow, TablesFreed;
    } else {
      NoTable(m, d, i);
      hide Tabled, Guarded;
    }
  }

  lemma TableFreed(m: Vm, n: Vm, r: Vm, d: nat, i: nat, t: nat)
    requires Shape(m) && Shape(n) && Shape(r) && d < NFRAMES && TablesFreed(m, n, d, i) && t != d
    requires forall x: nat :: TableBelow(m, d, i + 1, x) <==> TableBelow(m, d, i, x) || x == t
    requires r.free == [t] + n.free && r.role == n.role - {t}
    requires forall x: nat :: x < NFRAMES && x != t ==> r.frames[x] == n.frames[x]
    ensures TablesFreed(m, r, d, i + 1)
  {
    hide Belongs, TableBelow;
    forall x: nat ensures x in r.free <==> x in n.free || x == t {
    }
  }

  lemma OneTable(m: Vm, d: nat, i: nat, t: nat)
    requires Inv(m) && t in m.role && m.role[t] == Table(d, i)
    ensures forall x: nat :: TableBelow(m, d, i + 1, x) <==> TableBelow(m, d, i, x) || x == t
    ensures t != d
  {
    hide Chained, Paged, Guarded;
    forall x: nat | TableBelow(m, d, i + 1, x) && m.role[x].i == i ensures x == t {
      assert m.role[x] == Table(d, i);
    }
  }

  lemma NoTable(m: Vm, d: nat, i: nat)
    requires Inv(m) && Space(m, d) && i < ENTRIES && d < NFRAMES && !Present(Pde(m, d, i))
    ensures forall x: nat :: TableBelow(m, d, i + 1, x) <==> TableBelow(m, d, i, x)
  {
    hide Chained, Paged, Guarded;
    forall x: nat | TableBelow(m, d, i + 1, x) ensures m.role[x].i != i {
      assert m.role[x] == Table(d, m.role[x].i);
    }
  }

  /** Once no user page is left the space can be given up. */
  lemma SpaceGivenUp(m: Vm, n: Vm, d: nat)
    requires Inv(m) && Space(m, d) && Freed(m, n, d, 0, USERPAGES)
    ensures Inv(n) && Space(n, d) && d < NFRAMES && Inv(Abandoned(n, d)) && TablesFreed(n, Abandoned(n, d), d, 0)
  {
    AllUserPagesFreed(m, n, d);
    FreedInv(m, n, d, 0, USERPAGES);
    InvShape(n);
    hide Freed, Inv;
    forall f, p: nat | f in n.role ensures n.role[f] != User(d, p) {
    }
    AbandonedInv(n, d);
    NoTablesFreed(n, d);
  }

  lemma NoTablesFreed(m: Vm, d: nat)
    requires Shape(m) && d < NFRAMES && Space(m, d)
    ensures TablesFreed(m, Abandoned(m, d), d, 0)
  {
  }

  lemma SpaceGone(m: Vm, n: Vm, s: Vm, d: nat)
    requires Inv(m) && Space(m, d) && Freed(m, n, d, 0, USERPAGES) && Inv(n) && Space(n, d)
    requires Inv(s) && d < NFRAMES && TablesFreed(n, s, d, ENTRIES)
    ensures m.first <= d && Inv(Pushed(s, d)) && SpaceFreed(m, Pushed(s, d), d)
  {
    InvShape(m);
    InvShape(n);
    InvShape(s);
    TablesAre(n, d);
    assert Belongs(n, d, d);
    PushedInv(s, d);
    AllUserPagesFreed(m, n, d);
    FramesKept(m, n, d);
    DirectoryIs(m, d);
    DirectoryIs(n, d);
    hide Freed, Inv, Pushed, SpaceFreed, TablesFreed, TableBelow;
    PushedIs(s, d);
    SpaceGoneFrames(m, n, s, Pushed(s, d), d);
  }

  lemma PushedIs(m: Vm, f: nat)
    requires Shape(m) && f < NFRAMES
    ensures var r := Pushed(m, f);
            && (forall x: nat :: x in r.free <==> x in m.free || x == f)
            && r.role == m.role - {f} && (forall x: nat :: x < NFRAMES && x != f ==> r.frames[x] == m.frames[x])
  {
  }

  lemma DirectoryIs(m: Vm, d: nat)
    requires Inv(m) && Space(m, d)
    ensures forall x: nat :: x in m.role && m.role[x] == Dir ==> (Belongs(m, x, d) <==> x == d)
  {
  }

  lemma SpaceGoneFrames(m: Vm, n: Vm, s: Vm, r: Vm, d: nat)
    requires Shape(m) && Shape(n) && Shape(s) && Shape(r) && d < NFRAMES && Space(m, d) && Space(n, d)
    requires forall x: nat :: x in n.free <==> x in m.free || (x in m.role && m.role[x].User? && m.role[x].d == d)
    requires forall x: nat :: x in n.role <==> x in m.role && !(m.role[x].User? && m.role[x].d == d)
    requires forall x: nat :: x in n.role ==> n.role[x] == m.role[x]
    requires forall x: nat :: x in n.role && x < NFRAMES && !(n.role[x].Table? && n.role[x].d == d) ==>
               n.frames[x] == m.frames[x]
    requires forall x: nat :: TableBelow(n, d, ENTRIES, x) <==> x in n.role && n.role[x].Table? && n.role[x].d == d
    requires TablesFreed(n, s, d, ENTRIES)
    requires forall x: nat :: x in r.free <==> x in s.free || x == d
    requires r.role == s.role - {d} && (forall x: nat :: x < NFRAMES && x != d ==> r.frames[x] == s.frames[x])
    ensures SpaceFreed(m, r, d)
  {
    hide TableBelow;
  }

  lemma TablesAre(m: Vm, d: nat)
    requires Inv(m) && Space(m, d)
    ensures forall x: nat :: TableBelow(m, d, ENTRIES, x) <==> x in m.role && m.role[x].Table? && m.role[x].d == d
  {
    hide Chained, Paged, Guarded;
    forall x: nat | x in m.role && m.role[x].Table? && m.role[x].d == d ensures m.role[x].i < ENTRIES {
      assert m.role[x] == Table(d, m.role[x].i);
    }
  }

  lemma FramesKept(m: Vm, n: Vm, d: nat)
    requires Inv(m) && Space(m, d) && Freed(m, n, d, 0, USERPAGES)
    ensures Shape(n) && forall x: nat :: x in n.role && x < NFRAMES && !(n.role[x].Table? && n.role[x].d == d) ==>
              n.frames[x] == m.frames[x]
  {
  }
}
