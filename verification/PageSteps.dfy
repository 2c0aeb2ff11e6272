/** What each change of vm.c and kalloc.c does to page tables, roles and the free list. */
module PageSteps {
  import opened Basics
  import opened PageTables

  function SetFrame(m: Vm, f: nat, page: Page): (n: Vm)
    requires Shape(m) && f < NFRAMES
    ensures Shape(n) && n == m.(frames := n.frames)
  {
    m.(frames := m.frames[f := page])
  }

  /** One word of a frame is written. */
  function SetWord(m: Vm, f: nat, k: nat, w: Word): (n: Vm)
    requires Shape(m) && f < NFRAMES && k < ENTRIES
    ensures Shape(n) && n == m.(frames := n.frames)
  {
    SetFrame(m, f, m.frames[f][k := w])
  }

  function WithRole(m: Vm, f: nat, r: Role): (n: Vm)
    ensures n == m.(role := n.role)
  {
    m.(role := m.role[f := r])
  }

  // ----- kalloc and kfree -----

  /** kalloc: the head of the list, in no use yet. */
  function Popped(m: Vm): (n: Vm)
    requires Shape(m) && Chained(m) && m.free != []
    ensures Shape(n)
  {
    m.(list := m.frames[m.free[0]][0], free := m.free[1..], role := m.role[m.free[0] := Loose])
  }

  /** The page kfree leaves: junk, and the link to the old head. */
  function JunkPage(next: Word): Page {
    seq(ENTRIES, _ => 0x01010101)[0 := next]
  }

  function Pushed(m: Vm, f: nat): (n: Vm)
    requires Shape(m) && f < NFRAMES
    ensures Shape(n)
  {
    m.(frames := m.frames[f := JunkPage(m.list)], list := Ptr(f), free := [f] + m.free, role := m.role - {f})
  }

  /** Page tables and directories of the same spaces agree. */
  ghost predicate SameTables(m: Vm, n: Vm) {
    && Shape(m) && Shape(n)
    && (forall d: nat :: d < NFRAMES && Space(m, d) ==> Space(n, d))
    && (forall d: nat, p: nat :: p < ALLPAGES && d < NFRAMES && Space(m, d) ==>
          Pte(n, d, p) == Pte(m, d, p) && (HasTable(n, d, p) <==> HasTable(m, d, p)))
  }

  /** A write to a frame that is neither the directory nor the table changes no entry. */
  lemma PteAfterWrite(m: Vm, f: nat, page: Page, d: nat, p: nat)
    requires Shape(m) && f < NFRAMES && d < NFRAMES && p < ALLPAGES && f != d
    requires HasTable(m, d, p) ==> FrameOf(Pde(m, d, p / ENTRIES)) != f
    ensures Pte(SetFrame(m, f, page), d, p) == Pte(m, d, p)
    ensures HasTable(SetFrame(m, f, page), d, p) <==> HasTable(m, d, p)
    ensures Pde(SetFrame(m, f, page), d, p / ENTRIES) == Pde(m, d, p / ENTRIES)
  {
  }

  lemma TableRole(m: Vm, d: nat, p: nat)
    requires Inv(m) && Space(m, d) && p < ALLPAGES && HasTable(m, d, p)
    ensures d < NFRAMES
    ensures var t := FrameOf(Pde(m, d, p / ENTRIES));
            t in m.role && m.role[t] == Table(d, p / ENTRIES)
  {
  }

  /** Overwriting a frame that is in no page table's way keeps everything. */
  lemma PlainWrite(m: Vm, f: nat, page: Page)
    requires Inv(m) && f in m.role && (m.role[f].User? || m.role[f].Loose?)
    ensures f < NFRAMES && Inv(SetFrame(m, f, page)) && SameTables(m, SetFrame(m, f, page))
  {
    var n := SetFrame(m, f, page);
    PlainWriteTables(m, f, page);
    assert Chained(n) by {
      hide Tabled, Paged, Guarded;
    }
    assert Tabled(n) by {
      hide Chained, Paged, Guarded;
      TabledSame(m, n);
    }
    assert Paged(n) by {
      hide Chained, Tabled, Guarded;
      PagedSame(m, n);
    }
    hide Chained, Tabled, Paged;
    GuardedSame(m, n);
  }

  lemma PlainWriteTables(m: Vm, f: nat, page: Page)
    requires Inv(m) && f in m.role && (m.role[f].User? || m.role[f].Loose?)
    ensures f < NFRAMES && SameTables(m, SetFrame(m, f, page))
    ensures forall d: nat, i: nat :: Space(m, d) && d < NFRAMES && i < ENTRIES ==>
              Pde(SetFrame(m, f, page), d, i) == Pde(m, d, i)
  {
    hide Chained, Paged, Guarded;
    var n := SetFrame(m, f, page);
    forall d: nat, p: nat | p < ALLPAGES && d < NFRAMES && Space(m, d)
      ensures Pte(n, d, p) == Pte(m, d, p) && (HasTable(n, d, p) <==> HasTable(m, d, p))
    {
      if HasTable(m, d, p) {
        TableRole(m, d, p);
      }
      PteAfterWrite(m, f, page, d, p);
    }
  }

  lemma TabledSame(m: Vm, n: Vm)
    requires Shape(m) && Disjoint(m) && Tabled(m) && Shape(n) && Disjoint(n)
    requires forall d: nat :: Space(n, d) <==> Space(m, d)
    requires forall d: nat, i: nat :: Space(m, d) && d < NFRAMES && i < ENTRIES ==> Pde(n, d, i) == Pde(m, d, i)
    requires forall f, d: nat, i: nat :: (f in n.role && n.role[f] == Table(d, i)) <==>
               (f in m.role && m.role[f] == Table(d, i))
    ensures Tabled(n)
  {
  }

  lemma GuardedSame(m: Vm, n: Vm)
    requires Shape(m) && Guarded(m) && Shape(n)
    requires forall d: nat :: Space(n, d) ==> Space(m, d)
    requires forall d: nat, i: nat :: Space(n, d) && d < NFRAMES && i < ENTRIES ==> Pde(n, d, i) == Pde(m, d, i)
    requires forall d: nat, p: nat :: Space(n, d) && d < NFRAMES && p < ALLPAGES ==> Pte(n, d, p) == Pte(m, d, p)
    ensures Guarded(n)
  {
    hide Pte, Pde;
  }

  lemma PagedSame(m: Vm, n: Vm)
    requires Shape(m) && Disjoint(m) && Paged(m) && SameTables(m, n) && Disjoint(n)
    requires forall d: nat :: Space(n, d) <==> Space(m, d)
    requires forall f, d: nat, p: nat :: (f in n.role && n.role[f] == User(d, p)) <==>
               (f in m.role && m.role[f] == User(d, p))
    ensures Paged(n)
  {
  }

  lemma PoppedInv(m: Vm)
    requires Inv(m) && m.free != []
    ensures var n := Popped(m);
            Inv(n) && SameTables(m, n) && n.role[m.free[0]] == Loose && m.free[0] !in m.role
  {
    hide Chained, Tabled, Paged, Guarded;
    var n := Popped(m);
    PoppedChained(m);
    assert Disjoint(n);
    TabledSame(m, n);
    PagedSame(m, n);
    GuardedSame(m, n);
  }

  lemma PoppedChained(m: Vm)
    requires Shape(m) && Chained(m) && m.free != []
    ensures Chained(Popped(m)) && m.first <= m.free[0] < NFRAMES
  {
    var n := Popped(m);
    assert m.frames[m.free[0]][0] == Link(m.free, 0);
    forall k | 0 <= k < |n.free|
      ensures m.first <= n.free[k] < NFRAMES && n.frames[n.free[k]][0] == Link(n.free, k)
    {
      assert n.free[k] == m.free[k + 1];
      assert m.frames[m.free[k + 1]][0] == Link(m.free, k + 1);
    }
  }

  lemma PushedInv(m: Vm, f: nat)
    requires Inv(m) && f in m.role && m.role[f] == Loose
    ensures f < NFRAMES && Inv(Pushed(m, f)) && SameTables(m, Pushed(m, f))
  {
    PlainWrite(m, f, JunkPage(m.list));
    PushedChained(m, f);
    var k := SetFrame(m, f, JunkPage(m.list));
    var n := Pushed(m, f);
    hide Chained, Tabled, Paged, Guarded, Pte, HasTable;
    assert n.frames == k.frames;
    assert Disjoint(n);
    SameFrames(k, n);
    TabledSame(k, n);
    PagedSame(k, n);
    GuardedSame(k, n);
  }

  lemma PushedChained(m: Vm, f: nat)
    requires Inv(m) && f in m.role && m.role[f] == Loose
    ensures f < NFRAMES && Chained(Pushed(m, f))
  {
    hide Tabled, Paged, Guarded;
  }

  lemma SameFrames(m: Vm, n: Vm)
    requires Shape(m) && Shape(n) && n.frames == m.frames
    ensures forall d: nat, i: nat :: d < NFRAMES && i < ENTRIES ==> Pde(n, d, i) == Pde(m, d, i)
    ensures forall d: nat, p: nat :: d < NFRAMES && p < ALLPAGES ==>
              Pte(n, d, p) == Pte(m, d, p) && (HasTable(n, d, p) <==> HasTable(m, d, p))
  {
  }

  // ----- walkpgdir with alloc -----

  /** A fresh table for the 4 MB that hold page p. */
  function TableAdded(m: Vm, d: nat, p: nat): (n: Vm)
    requires Shape(m) && Chained(m) && m.free != [] && d < NFRAMES && p < ALLPAGES
    ensures Shape(n)
  {
    var z := SetFrame(Popped(m), m.free[0], ZeroPage());
    WithRole(SetWord(z, d, p / ENTRIES, Entry(m.free[0], PERM_WU)), m.free[0], Table(d, p / ENTRIES))
  }

  /** The new table adds no mapping. */
  lemma TableAddedTables(m: Vm, d: nat, p: nat)
    requires Inv(m) && m.free != [] && Space(m, d) && p < ALLPAGES && !HasTable(m, d, p)
    ensures var n := TableAdded(m, d, p);
            && (forall e: nat :: Space(n, e) <==> Space(m, e))
            && (forall e: nat, q: nat :: q < ALLPAGES && Space(m, e) ==>
                  && Pte(n, e, q) == Pte(m, e, q)
                  && (HasTable(n, e, q) <==> HasTable(m, e, q) || (e == d && q / ENTRIES == p / ENTRIES)))
  {
    hide Chained, Paged, Guarded;
    var n := TableAdded(m, d, p);
    var t := m.free[0];
    PoppedChained(m);
    forall e: nat, q: nat | q < ALLPAGES && Space(m, e)
      ensures Pte(n, e, q) == Pte(m, e, q)
      ensures HasTable(n, e, q) <==> HasTable(m, e, q) || (e == d && q / ENTRIES == p / ENTRIES)
    {
      assert e != t;
      if HasTable(m, e, q) {
        TableRole(m, e, q);
        assert FrameOf(Pde(m, e, q / ENTRIES)) != t && FrameOf(Pde(m, e, q / ENTRIES)) != d;
      }
    }
  }

  lemma TableAddedInv(m: Vm, d: nat, p: nat)
    requires Inv(m) && m.free != [] && Space(m, d) && p < ALLPAGES && !HasTable(m, d, p)
    ensures Inv(TableAdded(m, d, p))
  {
    var n := TableAdded(m, d, p);
    PoppedChained(m);
    TableAddedTables(m, d, p);
    TableAddedChained(m, d, p);
    TableAddedRecorded(m, d, p);
    hide Chained, Tabled, Guarded;
    assert Disjoint(n);
    forall e: nat, q: nat | Space(n, e) && q < USERPAGES && Mapped(n, e, q)
      ensures FrameOf(Pte(n, e, q)) in n.role && n.role[FrameOf(Pte(n, e, q))] == User(e, q)
    {
      assert Mapped(m, e, q);
    }
    assert Paged(n);
    hide Paged;
    TableAddedPdes(m, d, p);
    EntryBits(m.free[0], PERM_WU);
    hide TableAdded, Pte, Pde, HasTable, Entry;
    GuardedMore(m, n, d, p / ENTRIES, Entry(m.free[0], PERM_WU));
  }

  /** One entry of a directory is new. */
  lemma GuardedMore(m: Vm, n: Vm, d: nat, i: nat, w: Word)
    requires Shape(m) && Guarded(m) && Shape(n) && w % 8 == 7
    requires forall e: nat :: Space(n, e) ==> Space(m, e)
    requires forall e: nat, j: nat :: Space(n, e) && e < NFRAMES && j < ENTRIES ==>
               Pde(n, e, j) == if e == d && j == i then w else Pde(m, e, j)
    requires forall e: nat, q: nat :: Space(n, e) && e < NFRAMES && q < ALLPAGES ==> Pte(n, e, q) == Pte(m, e, q)
    ensures Guarded(n)
  {
    hide Pte, Pde;
  }

  /** One entry of a table is new. */
  lemma GuardedBut(m: Vm, n: Vm, d: nat, p: nat)
    requires Shape(m) && Guarded(m) && Shape(n)
    requires forall e: nat :: Space(n, e) ==> Space(m, e)
    requires forall e: nat, j: nat :: Space(n, e) && e < NFRAMES && j < ENTRIES ==> Pde(n, e, j) == Pde(m, e, j)
    requires forall e: nat, q: nat :: Space(n, e) && e < NFRAMES && q < ALLPAGES && (e != d || q != p) ==>
               Pte(n, e, q) == Pte(m, e, q)
    requires d < NFRAMES && p < ALLPAGES && EntryOk(Pte(n, d, p), p)
    ensures Guarded(n)
  {
    hide Pte, Pde, EntryOk;
  }

  lemma TableAddedChained(m: Vm, d: nat, p: nat)
    requires Inv(m) && m.free != [] && Space(m, d) && p < ALLPAGES && !HasTable(m, d, p)
    ensures Chained(TableAdded(m, d, p))
  {
    hide Tabled, Paged, Guarded;
    PoppedChained(m);
  }

  lemma TableAddedRecorded(m: Vm, d: nat, p: nat)
    requires Inv(m) && m.free != [] && Space(m, d) && p < ALLPAGES && !HasTable(m, d, p)
    ensures Disjoint(TableAdded(m, d, p)) && Tabled(TableAdded(m, d, p))
  {
    TableAddedPdes(m, d, p);
    NoTableYet(m, d, p);
    hide Chained, Paged, Pde, Tabled, Guarded, TableAdded;
    TabledMore(m, TableAdded(m, d, p), d, p / ENTRIES, m.free[0]);
  }

  lemma TableAddedPdes(m: Vm, d: nat, p: nat)
    requires Inv(m) && m.free != [] && Space(m, d) && p < ALLPAGES && !HasTable(m, d, p)
    ensures var n, t := TableAdded(m, d, p), m.free[0];
            && Shape(n) && Disjoint(n) && t < NFRAMES && t !in m.role && n.role == m.role[t := Table(d, p / ENTRIES)]
            && forall e: nat, i: nat :: Space(m, e) && i < ENTRIES ==>
                 Pde(n, e, i) == if e == d && i == p / ENTRIES then Entry(t, PERM_WU) else Pde(m, e, i)
  {
    PoppedChained(m);
    hide Chained, Paged, Tabled, Guarded;
  }

  lemma NoTableYet(m: Vm, d: nat, p: nat)
    requires Inv(m) && Space(m, d) && p < ALLPAGES && !HasTable(m, d, p)
    ensures d < NFRAMES && !Present(Pde(m, d, p / ENTRIES))
  {
  }

  lemma TabledMore(m: Vm, n: Vm, d: nat, i: nat, t: nat)
    requires Shape(m) && Disjoint(m) && Tabled(m) && Shape(n) && Disjoint(n)
    requires Space(m, d) && i < ENTRIES && t < NFRAMES && t !in m.role && t in n.role
    requires n.role == m.role[t := Table(d, i)]
    requires !Present(Pde(m, d, i))
    requires forall e: nat, j: nat :: Space(m, e) && j < ENTRIES ==>
               Pde(n, e, j) == if e == d && j == i then Entry(t, PERM_WU) else Pde(m, e, j)
    ensures Tabled(n)
  {
    hide Pde, Entry;
    forall e: nat, j: nat | Space(n, e) && j < ENTRIES && Present(Pde(n, e, j))
      ensures FrameOf(Pde(n, e, j)) in n.role && n.role[FrameOf(Pde(n, e, j))] == Table(e, j)
    {
      assert Space(m, e);
    }
    forall g, e: nat, j: nat | g in n.role && n.role[g] == Table(e, j)
      ensures Space(n, e) && j < ENTRIES && Present(Pde(n, e, j)) && FrameOf(Pde(n, e, j)) == g
    {
      if g != t {
        assert m.role[g] == Table(e, j);
      }
    }
  }

  // ----- entries of page tables -----

  /** The entry for page p is overwritten. */
  function SetPte(m: Vm, d: nat, p: nat, w: Word): (n: Vm)
    requires Shape(m) && d < NFRAMES && p < ALLPAGES && HasTable(m, d, p)
    ensures Shape(n) && n == m.(frames := n.frames)
  {
    SetWord(m, FrameOf(Pde(m, d, p / ENTRIES)), p % ENTRIES, w)
  }

  /** It is the only entry that changes. */
  lemma SetPteTables(m: Vm, d: nat, p: nat, w: Word)
    requires Inv(m) && Space(m, d) && p < ALLPAGES && HasTable(m, d, p)
    ensures var n := SetPte(m, d, p, w);
            && (forall e: nat, i: nat :: Space(m, e) && i < ENTRIES ==> Pde(n, e, i) == Pde(m, e, i))
            && (forall e: nat, q: nat :: q < ALLPAGES && Space(m, e) ==>
                  && Pte(n, e, q) == (if e == d && q == p then w else Pte(m, e, q))
                  && (HasTable(n, e, q) <==> HasTable(m, e, q)))
  {
    hide Chained, Paged, Guarded;
    var n := SetPte(m, d, p, w);
    var t := FrameOf(Pde(m, d, p / ENTRIES));
    TableRole(m, d, p);
    forall e: nat, q: nat | q < ALLPAGES && Space(m, e)
      ensures Pte(n, e, q) == (if e == d && q == p then w else Pte(m, e, q))
      ensures HasTable(n, e, q) <==> HasTable(m, e, q)
    {
      assert e != t;
      if HasTable(m, e, q) {
        TableRole(m, e, q);
      }
      if q / ENTRIES == p / ENTRIES && q % ENTRIES == p % ENTRIES {
        assert q == p;
      }
    }
  }

  /** A loose frame becomes user page p. */
  function UserMapped(m: Vm, d: nat, p: nat, f: nat): (n: Vm)
    requires Shape(m) && d < NFRAMES && p < ALLPAGES && HasTable(m, d, p) && f < NFRAMES
    ensures Shape(n)
  {
    WithRole(SetPte(m, d, p, Entry(f, PERM_WU)), f, User(d, p))
  }

  lemma UserMappedInv(m: Vm, d: nat, p: nat, f: nat)
    requires Inv(m) && Space(m, d) && p < USERPAGES && HasTable(m, d, p) && !Mapped(m, d, p)
    requires f in m.role && m.role[f] == Loose
    ensures f < NFRAMES && Inv(UserMapped(m, d, p, f))
  {
    var n := UserMapped(m, d, p, f);
    SetPteTables(m, d, p, Entry(f, PERM_WU));
    SetPteChained(m, d, p, Entry(f, PERM_WU));
    hide Chained, Tabled, Guarded, Mapped, Pte, HasTable;
    RoleChained(SetPte(m, d, p, Entry(f, PERM_WU)), f, User(d, p));
    hide Paged, Guarded;
    assert Disjoint(n);
    TabledSame(m, n);
    NoOtherUse(m, d, p);
    MappedIff(n, d, p);
    PagedBut(m, n, d, p);
    EntryBits(f, PERM_WU);
    hide Entry;
    GuardedBut(m, n, d, p);
  }

  lemma MappedIff(m: Vm, d: nat, p: nat)
    requires Shape(m) && d < NFRAMES && p < ALLPAGES
    ensures Mapped(m, d, p) <==> Present(Pte(m, d, p))
  {
  }

  /** An unmapped page has no frame. */
  lemma NoOtherUse(m: Vm, d: nat, p: nat)
    requires Inv(m) && Space(m, d) && p < USERPAGES && !Mapped(m, d, p)
    ensures forall f :: f in m.role ==> m.role[f] != User(d, p)
  {
  }

  /** A mapped page has one. */
  lemma OnlyUse(m: Vm, d: nat, p: nat)
    requires Inv(m) && Space(m, d) && p < USERPAGES && Mapped(m, d, p)
    ensures forall f :: f in m.role && m.role[f] == User(d, p) <==> f == FrameOf(Pte(m, d, p))
  {
  }

  /** Everything but page p of d stays as it was, and that page is right. */
  lemma PagedBut(m: Vm, n: Vm, d: nat, p: nat)
    requires Shape(m) && Disjoint(m) && Paged(m) && Shape(n) && Disjoint(n)
    requires Space(m, d) && p < USERPAGES
    requires forall e: nat :: Space(n, e) <==> Space(m, e)
    requires forall e: nat, q: nat :: q < USERPAGES && Space(m, e) && (e != d || q != p) ==>
               Pte(n, e, q) == Pte(m, e, q)
    requires forall f, e: nat, q: nat :: e != d || q != p ==>
               ((f in n.role && n.role[f] == User(e, q)) <==> (f in m.role && m.role[f] == User(e, q)))
    requires Present(Pte(n, d, p)) ==>
               FrameOf(Pte(n, d, p)) in n.role && n.role[FrameOf(Pte(n, d, p))] == User(d, p)
    requires forall f :: f in n.role && n.role[f] == User(d, p) ==> Present(Pte(n, d, p)) && FrameOf(Pte(n, d, p)) == f
    ensures Paged(n)
  {
    hide Pte, HasTable, Present, FrameOf;
    forall e: nat, q: nat | Space(n, e) && q < USERPAGES && Mapped(n, e, q)
      ensures FrameOf(Pte(n, e, q)) in n.role && n.role[FrameOf(Pte(n, e, q))] == User(e, q)
    {
      if e != d || q != p {
        assert Mapped(m, e, q);
      }
    }
    forall f, e: nat, q: nat | f in n.role && n.role[f] == User(e, q)
      ensures Space(n, e) && q < USERPAGES && Mapped(n, e, q) && FrameOf(Pte(n, e, q)) == f
    {
      if e != d || q != p {
        assert f in m.role && m.role[f] == User(e, q);
      }
    }
  }

  lemma RoleChained(m: Vm, f: nat, r: Role)
    requires Shape(m) && Chained(m)
    ensures Chained(WithRole(m, f, r))
  {
  }

  lemma SetPteChained(m: Vm, d: nat, p: nat, w: Word)
    requires Inv(m) && Space(m, d) && p < ALLPAGES && HasTable(m, d, p)
    ensures Chained(SetPte(m, d, p, w))
  {
    TableRole(m, d, p);
    hide Tabled, Paged, Guarded;
  }

  lemma KernelMappedInv(m: Vm, d: nat, p: nat, w: Word)
    requires Inv(m) && Space(m, d) && USERPAGES <= p < ALLPAGES && HasTable(m, d, p) && w % 8 < 4
    ensures Inv(SetPte(m, d, p, w))
  {
    var n := SetPte(m, d, p, w);
    SetPteTables(m, d, p, w);
    SetPteChained(m, d, p, w);
    hide Chained, Tabled, Paged, Guarded;
    TabledSame(m, n);
    KernelPaged(m, n);
    GuardedBut(m, n, d, p);
  }

  lemma KernelPaged(m: Vm, n: Vm)
    requires Shape(m) && Disjoint(m) && Paged(m) && Shape(n) && n.role == m.role && Disjoint(n)
    requires forall e: nat, q: nat :: q < USERPAGES && Space(m, e) ==> Pte(n, e, q) == Pte(m, e, q)
    ensures Paged(n)
  {
    hide Pte, HasTable;
  }

  /** User page p is unmapped; its frame is loose again. */
  function Unmapped(m: Vm, d: nat, p: nat): (n: Vm)
    requires Shape(m) && d < NFRAMES && p < ALLPAGES && HasTable(m, d, p)
    ensures Shape(n)
  {
    WithRole(SetPte(m, d, p, 0), FrameOf(Pte(m, d, p)), Loose)
  }

  lemma UnmappedInv(m: Vm, d: nat, p: nat)
    requires Inv(m) && Space(m, d) && p < USERPAGES && Mapped(m, d, p)
    ensures Inv(Unmapped(m, d, p))
  {
    UnmappedTabled(m, d, p);
    UnmappedPaged(m, d, p);
    UnmappedGuarded(m, d, p);
    hide Unmapped, Chained, Tabled, Paged, Guarded;
  }

  lemma UnmappedTabled(m: Vm, d: nat, p: nat)
    requires Inv(m) && Space(m, d) && p < USERPAGES && Mapped(m, d, p)
    ensures var n := Unmapped(m, d, p); Chained(n) && Disjoint(n) && Tabled(n)
  {
    SetPteTables(m, d, p, 0);
    SetPteChained(m, d, p, 0);
    hide Chained, Tabled, Guarded, Mapped, Pte, HasTable;
    RoleChained(SetPte(m, d, p, 0), FrameOf(Pte(m, d, p)), Loose);
    MappedIff(m, d, p);
    assert FrameOf(Pte(m, d, p)) in m.role && m.role[FrameOf(Pte(m, d, p))] == User(d, p);
    hide Paged;
    TabledSame(m, Unmapped(m, d, p));
  }

  lemma UnmappedPaged(m: Vm, d: nat, p: nat)
    requires Inv(m) && Space(m, d) && p < USERPAGES && Mapped(m, d, p)
    ensures Paged(Unmapped(m, d, p))
  {
    var n := Unmapped(m, d, p);
    UnmappedTabled(m, d, p);
    SetPteTables(m, d, p, 0);
    OnlyUse(m, d, p);
    hide Chained, Tabled, Guarded, Mapped, Pte, HasTable, Paged;
    PagedBut(m, n, d, p);
  }

  lemma UnmappedGuarded(m: Vm, d: nat, p: nat)
    requires Inv(m) && Space(m, d) && p < USERPAGES && Mapped(m, d, p)
    ensures Guarded(Unmapped(m, d, p))
  {
    var n := Unmapped(m, d, p);
    SetPteTables(m, d, p, 0);
    OnlyUse(m, d, p);
    hide Chained, Tabled, Guarded, Mapped, Pte, HasTable, Paged;
    GuardedBut(m, n, d, p);
  }
}
