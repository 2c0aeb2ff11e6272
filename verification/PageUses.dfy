/** Making and taking apart whole address spaces: who is left untouched by which change. */
module PageUses {
  import opened PageTables
  import opened PageSteps

  /** f is the directory, a table or a user page of d. */
  ghost predicate Belongs(m: Vm, f: nat, d: nat) {
    f in m.role &&
    match m.role[f]
    case Dir => f == d
    case Table(e, _) => e == d
    case User(e, _) => e == d
    case Loose => false
  }

  /** f is the directory or a table of d. */
  ghost predicate Walks(m: Vm, f: nat, d: nat) {
    f in m.role && ((m.role[f] == Dir && f == d) || (m.role[f].Table? && m.role[f].d == d))
  }

  /** Every frame in use, but for the tables of d, keeps its use and its bytes. */
  ghost predicate Untouched(m: Vm, n: Vm, d: nat)
    requires Shape(m) && Shape(n)
  {
    UntouchedBut(m, n, d, NFRAMES)
  }

  /** Every such frame but x. */
  ghost predicate UntouchedBut(m: Vm, n: Vm, d: nat, x: nat)
    requires Shape(m) && Shape(n)
  {
    forall f :: f in m.role && f < NFRAMES && f != x && !Walks(m, f, d) ==>
      f in n.role && n.role[f] == m.role[f] && n.frames[f] == m.frames[f]
  }

  /** So every other address space maps what it mapped, to the same bytes. */
  lemma UntouchedSpace(m: Vm, n: Vm, d: nat, e: nat, p: nat)
    requires Inv(m) && Inv(n) && Untouched(m, n, d) && Space(m, e) && e != d && p < ALLPAGES
    ensures Space(n, e) && Pte(n, e, p) == Pte(m, e, p) && (HasTable(n, e, p) <==> HasTable(m, e, p))
    ensures p < USERPAGES && Mapped(m, e, p) ==>
              FrameOf(Pte(m, e, p)) in m.role && FrameOf(Pte(m, e, p)) < NFRAMES &&
              n.frames[FrameOf(Pte(m, e, p))] == m.frames[FrameOf(Pte(m, e, p))]
  {
    assert !Walks(m, e, d);
    if HasTable(m, e, p) {
      TableRole(m, e, p);
      assert !Walks(m, FrameOf(Pde(m, e, p / ENTRIES)), d);
    }
    if p < USERPAGES && Mapped(m, e, p) {
      assert !Walks(m, FrameOf(Pte(m, e, p)), d);
    }
  }

  /** Every frame in use, but for those of d, keeps its use and its bytes. */
  ghost predicate KeptBut(m: Vm, n: Vm, d: nat)
    requires Shape(m) && Shape(n)
  {
    forall f :: f in m.role && f < NFRAMES && !Belongs(m, f, d) ==>
      f in n.role && n.role[f] == m.role[f] && n.frames[f] == m.frames[f]
  }

  lemma UntouchedKept(m: Vm, n: Vm, d: nat)
    requires Shape(m) && Shape(n) && Untouched(m, n, d)
    ensures KeptBut(m, n, d)
  {
  }

  lemma KeptSame(m: Vm, d: nat)
    requires Shape(m)
    ensures KeptBut(m, m, d)
  {
  }

  lemma KeptThen(m: Vm, b: Vm, n: Vm, d: nat)
    requires Shape(m) && Shape(b) && Shape(n) && KeptBut(m, b, d) && KeptBut(b, n, d)
    ensures KeptBut(m, n, d)
  {
  }

  lemma SpaceKept(m: Vm, n: Vm, d: nat, e: nat, p: nat)
    requires Inv(m) && Inv(n) && KeptBut(m, n, d) && Space(m, e) && e != d && p < ALLPAGES
    ensures Space(n, e) && Pte(n, e, p) == Pte(m, e, p)
  {
    assert !Belongs(m, e, d);
    if HasTable(m, e, p) {
      TableRole(m, e, p);
      assert !Belongs(m, FrameOf(Pde(m, e, p / ENTRIES)), d);
    }
  }

  // ----- kfree(v); *pte = 0 -----

  /** deallocuvm frees the page first and clears the entry after. */
  lemma PageFreed(m: Vm, d: nat, p: nat)
    requires Inv(m) && Space(m, d) && p < USERPAGES && Mapped(m, d, p)
    ensures var f := FrameOf(Pte(m, d, p));
            && f in m.role && m.role[f] == User(d, p) && m.first <= f < NFRAMES
            && d < NFRAMES && HasTable(m, d, p) && HasTable(Pushed(m, f), d, p)
            && Pde(Pushed(m, f), d, p / ENTRIES) == Pde(m, d, p / ENTRIES)
            && SetPte(Pushed(m, f), d, p, 0) == Pushed(Unmapped(m, d, p), f)
            && Inv(Pushed(Unmapped(m, d, p), f))
  {
    var f := FrameOf(Pte(m, d, p));
    TableRole(m, d, p);
    UnmappedInv(m, d, p);
    PushedInv(Unmapped(m, d, p), f);
    hide Chained, Tabled, Guarded;
    var t := FrameOf(Pde(m, d, p / ENTRIES));
    assert m.role[f] == User(d, p);
    PushCommutes(m, f, t, p % ENTRIES);
  }

  lemma PushCommutes(m: Vm, f: nat, t: nat, k: nat)
    requires Shape(m) && f < NFRAMES && t < NFRAMES && t != f && k < ENTRIES && f in m.role
    ensures SetWord(Pushed(m, f), t, k, 0) == Pushed(WithRole(SetWord(m, t, k, 0), f, Loose), f)
  {
    assert m.frames[f := JunkPage(m.list)][t := m.frames[t][k := 0]]
           == m.frames[t := m.frames[t][k := 0]][f := JunkPage(m.list)];
    assert m.role[f := Loose] - {f} == m.role - {f};
  }

  // ----- directories -----

  /** A zeroed loose frame becomes a page directory. */
  lemma DirMade(m: Vm, f: nat)
    requires Inv(m) && f in m.role && m.role[f] == Loose
    requires f < NFRAMES && forall k :: 0 <= k < ENTRIES ==> m.frames[f][k] == 0
    ensures Inv(WithRole(m, f, Dir))
    ensures forall p :: 0 <= p < ALLPAGES ==> Pte(WithRole(m, f, Dir), f, p) == 0
  {
    var n := WithRole(m, f, Dir);
    hide Chained, Guarded;
    RoleChained(m, f, Dir);
    assert Disjoint(n);
    DirMadeTabled(m, f);
    DirMadePaged(m, f);
    DirMadeGuarded(m, f);
  }

  lemma DirMadeGuarded(m: Vm, f: nat)
    requires Shape(m) && Guarded(m) && f < NFRAMES && forall k :: 0 <= k < ENTRIES ==> m.frames[f][k] == 0
    ensures Guarded(WithRole(m, f, Dir))
  {
    var n := WithRole(m, f, Dir);
    forall d: nat, i: nat | Space(n, d) && d < NFRAMES && i < ENTRIES && Present(Pde(n, d, i))
      ensures Pde(n, d, i) % 8 == 7
    {
      assert d != f && Space(m, d) && Pde(m, d, i) == Pde(n, d, i);
    }
    forall d: nat, p: nat | Space(n, d) && d < NFRAMES && p < ALLPAGES ensures EntryOk(Pte(n, d, p), p) {
      if d != f {
        assert Space(m, d) && Pte(m, d, p) == Pte(n, d, p);
      }
    }
  }

  lemma DirMadeTabled(m: Vm, f: nat)
    requires Inv(m) && f in m.role && m.role[f] == Loose && Disjoint(WithRole(m, f, Dir))
    requires f < NFRAMES && forall k :: 0 <= k < ENTRIES ==> m.frames[f][k] == 0
    ensures Tabled(WithRole(m, f, Dir))
  {
    hide Chained, Paged, Guarded;
    var n := WithRole(m, f, Dir);
    forall d: nat, i: nat | Space(n, d) && i < ENTRIES && Present(Pde(n, d, i))
      ensures FrameOf(Pde(n, d, i)) in n.role && n.role[FrameOf(Pde(n, d, i))] == Table(d, i)
    {
      assert d != f && Space(m, d) && Pde(m, d, i) == Pde(n, d, i);
    }
    forall g, d: nat, i: nat | g in n.role && n.role[g] == Table(d, i)
      ensures Space(n, d) && i < ENTRIES && Present(Pde(n, d, i)) && FrameOf(Pde(n, d, i)) == g
    {
      assert m.role[g] == Table(d, i) && Pde(m, d, i) == Pde(n, d, i);
    }
  }

  lemma DirMadePaged(m: Vm, f: nat)
    requires Inv(m) && f in m.role && m.role[f] == Loose && Disjoint(WithRole(m, f, Dir))
    requires f < NFRAMES && forall k :: 0 <= k < ENTRIES ==> m.frames[f][k] == 0
    ensures Paged(WithRole(m, f, Dir))
  {
    hide Chained, Tabled, Guarded;
    var n := WithRole(m, f, Dir);
    forall d: nat, p: nat | Space(n, d) && p < USERPAGES && Mapped(n, d, p)
      ensures FrameOf(Pte(n, d, p)) in n.role && n.role[FrameOf(Pte(n, d, p))] == User(d, p)
    {
      assert d != f && Space(m, d) && Mapped(m, d, p);
    }
    forall g, d: nat, p: nat | g in n.role && n.role[g] == User(d, p)
      ensures Space(n, d) && p < USERPAGES && Mapped(n, d, p) && FrameOf(Pte(n, d, p)) == g
    {
      assert m.role[g] == User(d, p) && Pte(m, d, p) == Pte(n, d, p);
    }
  }

  /** The space is given up: its directory and tables are loose frames like any other. */
  ghost function Abandoned(m: Vm, d: nat): (n: Vm)
    ensures n == m.(role := n.role)
  {
    m.(role := map f | f in m.role :: if Belongs(m, f, d) then Loose else m.role[f])
  }

  lemma AbandonedInv(m: Vm, d: nat)
    requires Inv(m) && Space(m, d)
    requires forall f, p: nat :: f in m.role ==> m.role[f] != User(d, p)
    ensures Inv(Abandoned(m, d))
  {
    var n := Abandoned(m, d);
    assert Chained(n) by {
      hide Tabled, Paged, Guarded;
    }
    hide Chained, Guarded;
    assert Disjoint(n);
    AbandonedTabled(m, d);
    AbandonedPaged(m, d);
    hide Tabled, Paged;
    GuardedSame(m, n);
  }

  lemma AbandonedTabled(m: Vm, d: nat)
    requires Inv(m) && Space(m, d) && Disjoint(Abandoned(m, d))
    ensures Tabled(Abandoned(m, d))
  {
    hide Chained, Paged, Guarded;
    var n := Abandoned(m, d);
    forall e: nat, i: nat | Space(n, e) && i < ENTRIES && Present(Pde(n, e, i))
      ensures FrameOf(Pde(n, e, i)) in n.role && n.role[FrameOf(Pde(n, e, i))] == Table(e, i)
    {
      assert e != d && Space(m, e) && Pde(m, e, i) == Pde(n, e, i);
    }
    forall g, e: nat, i: nat | g in n.role && n.role[g] == Table(e, i)
      ensures Space(n, e) && i < ENTRIES && Present(Pde(n, e, i)) && FrameOf(Pde(n, e, i)) == g
    {
      assert m.role[g] == Table(e, i) && Pde(m, e, i) == Pde(n, e, i);
    }
  }

  lemma AbandonedPaged(m: Vm, d: nat)
    requires Inv(m) && Space(m, d) && Disjoint(Abandoned(m, d))
    requires forall f, p: nat :: f in m.role ==> m.role[f] != User(d, p)
    ensures Paged(Abandoned(m, d))
  {
    hide Chained, Tabled, Guarded;
    var n := Abandoned(m, d);
    forall e: nat, p: nat | Space(n, e) && p < USERPAGES && Mapped(n, e, p)
      ensures FrameOf(Pte(n, e, p)) in n.role && n.role[FrameOf(Pte(n, e, p))] == User(e, p)
    {
      assert e != d && Space(m, e) && Mapped(m, e, p);
    }
    forall g, e: nat, p: nat | g in n.role && n.role[g] == User(e, p)
      ensures Space(n, e) && p < USERPAGES && Mapped(n, e, p) && FrameOf(Pte(n, e, p)) == g
    {
      assert m.role[g] == User(e, p) && Pte(m, e, p) == Pte(n, e, p);
    }
  }

  /** A frame in no use at all may be handed to kfree. */
  lemma LooseMade(m: Vm, f: nat)
    requires Inv(m) && f !in m.role && f !in m.free && m.first <= f < NFRAMES
    ensures Inv(WithRole(m, f, Loose))
  {
    RoleChained(m, f, Loose);
    hide Chained, Guarded;
    assert Disjoint(WithRole(m, f, Loose));
    hide Tabled, Paged, Guarded, HasTable, Pte;
    TabledSame(m, WithRole(m, f, Loose));
    PagedSame(m, WithRole(m, f, Loose));
    GuardedSame(m, WithRole(m, f, Loose));
  }

  lemma LooseFreed(m: Vm, f: nat)
    requires Inv(m) && f !in m.role && f !in m.free && m.first <= f < NFRAMES
    ensures var n := Pushed(WithRole(m, f, Loose), f);
            Inv(n) && n.role == m.role && n.free == [f] + m.free && n.first == m.first
  {
    LooseMade(m, f);
    PushedInv(WithRole(m, f, Loose), f);
    hide Inv;
  }

  /** PTE_P alone tells whether there is a table. */
  lemma PresentTable(m: Vm, d: nat, p: nat)
    requires Inv(m) && Space(m, d) && p < ALLPAGES
    ensures d < NFRAMES && (HasTable(m, d, p) <==> Present(Pde(m, d, p / ENTRIES)))
  {
  }

  lemma InvShape(m: Vm)
    requires Inv(m)
    ensures Shape(m) && (m.free == [] <==> m.list == 0)
    ensures forall f :: f in m.role || f in m.free ==> m.first <= f < NFRAMES
  {
  }
}
