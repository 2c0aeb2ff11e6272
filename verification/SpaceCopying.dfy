/** What copyuvm builds: a second address space with the same bytes on frames of its own. */
module SpaceCopying {
  import opened PageTables
  import opened PageSteps
  import opened PageUses
  import opened PageRanges
  import opened PageFreeing
  import opened SpaceFreeing
  import opened PageGrowing

  /** Page q of c, in n, has a frame that was in no use in m, with the bytes page q of d had. */
  ghost predicate CopyOf(m: Vm, n: Vm, d: nat, c: nat, q: nat)
    requires Shape(m) && Shape(n) && d < NFRAMES && c < NFRAMES && q < ALLPAGES
  {
    var f := FrameOf(Pte(n, c, q));
    && Mapped(m, d, q) && Mapped(n, c, q) && f < NFRAMES && FrameOf(Pte(m, d, q)) < NFRAMES
    && f !in m.role && f in n.role && n.role[f] == User(c, q) && n.frames[f] == m.frames[FrameOf(Pte(m, d, q))]
  }

  /** Frames that p pages and their tables take. */
  function CopyCost(p: nat): (c: nat) {
    p + (p + ENTRIES - 1) / ENTRIES
  }

  /** Directory, kernel tables, p pages and their tables have been taken, and there are no other tables. */
  ghost predicate CopyFrames(m: Vm, n: Vm, c: nat, p: nat)
    requires Shape(n) && c < NFRAMES
  {
    && |m.free| == |n.free| + KERNELFRAMES + CopyCost(p)
    && (forall q :: 0 <= q < USERPAGES ==> (HasTable(n, c, q) <==> q / ENTRIES < (p + ENTRIES - 1) / ENTRIES))
  }

  lemma CopyFramesNext(m: Vm, b: Vm, n: Vm, c: nat, p: nat)
    requires Shape(b) && Shape(n) && c < NFRAMES && p < USERPAGES && CopyFrames(m, b, c, p)
    requires |n.free| == |b.free| - (if HasTable(b, c, p) then 1 else 2)
    requires forall q :: 0 <= q < USERPAGES ==> (HasTable(n, c, q) <==> HasTable(b, c, q) || q / ENTRIES == p / ENTRIES)
    ensures CopyFrames(m, n, c, p + 1)
  {
    hide HasTable;
  }

  /** All of the first n pages of d are mapped. */
  ghost predicate NoHole(m: Vm, d: nat, n: nat)
    requires Shape(m) && d < NFRAMES && n <= ALLPAGES
  {
    forall p :: 0 <= p < n ==> Mapped(m, d, p)
  }

  /** Page h is the first of them that is not. */
  ghost predicate FirstHole(m: Vm, d: nat, n: nat, h: nat)
    requires Shape(m) && d < NFRAMES && n <= ALLPAGES
  {
    h < n && NoHole(m, d, h) && !Mapped(m, d, h)
  }

  /** With k free frames, copyuvm takes one for a page and finds none for the table of that page. */
  ghost predicate OneShort(k: nat) {
    exists p :: 0 <= p && p % ENTRIES == 0 && CopyCost(p) + KERNELFRAMES + 1 == k
  }

  lemma CopyCostGrows(p: nat)
    ensures forall q: nat :: p < q ==> CopyCost(p) + 1 + (if p % ENTRIES == 0 then 1 else 0) <= CopyCost(q)
    ensures forall q: nat :: q < p ==> CopyCost(q) + 1 + (if q % ENTRIES == 0 then 1 else 0) <= CopyCost(p)
  {
  }

  /** c is a new space with the kernel's mappings and copies of the first p pages of d. */
  ghost predicate CopiedTo(m: Vm, n: Vm, d: nat, c: nat, p: nat, data: nat)
    requires Shape(m) && Shape(n) && d < NFRAMES && p <= USERPAGES
  {
    && c < NFRAMES && c !in m.role && m.role.Keys <= n.role.Keys && Accounted(m, n, c, NFRAMES) && Untouched(m, n, c)
    && CopyFrames(m, n, c, p)
    && (forall q :: 0 <= q < p ==> CopyOf(m, n, d, c, q))
    && (forall q :: p <= q < ALLPAGES ==> Pte(n, c, q) == KernelPte(data, q))
  }

  lemma CopyStarted(m: Vm, n: Vm, d: nat, c: nat, data: nat)
    requires Inv(m) && Inv(n) && Space(m, d) && MadeSpace(m, n, c, data)
    ensures d < NFRAMES && Space(n, c) && CopiedTo(m, n, d, c, 0, data)
  {
    SpaceDropped(m, n, c);
    MadeTakes(m, n, c, data);
    InvShape(m);
    hide Pte, KernelPte, HasTable, Inv;
  }

  /** The parent has not changed meanwhile. */
  lemma ParentSame(m: Vm, b: Vm, d: nat, c: nat, p: nat, data: nat)
    requires Inv(m) && Inv(b) && Space(m, d) && Space(b, c) && d < NFRAMES && p < USERPAGES
    requires CopiedTo(m, b, d, c, p, data)
    ensures d != c && c < NFRAMES && Space(b, d) && Pte(b, d, p) == Pte(m, d, p)
    ensures HasTable(b, d, p) <==> HasTable(m, d, p)
    ensures Mapped(b, d, p) <==> Mapped(m, d, p)
    ensures Mapped(m, d, p) ==>
              && FrameOf(Pte(m, d, p)) < NFRAMES && FrameOf(Pte(m, d, p)) in b.role
              && b.frames[FrameOf(Pte(m, d, p))] == m.frames[FrameOf(Pte(m, d, p))]
    ensures !Mapped(b, c, p)
  {
    UntouchedSpace(m, b, c, d, p);
    InvShape(m);
    InvShape(b);
    MappedIff(b, c, p);
    if Mapped(m, d, p) {
      UserPageRole(b, d, p);
    }
    hide Inv, Pte, HasTable, CopyOf, Accounted, Untouched;
  }

  lemma UserPageRole(m: Vm, d: nat, p: nat)
    requires Inv(m) && Space(m, d) && p < USERPAGES && Mapped(m, d, p)
    ensures FrameOf(Pte(m, d, p)) in m.role
  {
  }

  lemma CopyNext(m: Vm, b: Vm, d: nat, c: nat, p: nat, data: nat)
    requires Inv(m) && Inv(b) && Space(m, d) && Space(b, c) && d < NFRAMES && p < USERPAGES
    requires CopiedTo(m, b, d, c, p, data)
    requires Mapped(m, d, p) && FrameOf(Pte(m, d, p)) < NFRAMES && b.free != [] && (HasTable(b, c, p) || |b.free| > 1)
    ensures var n := Grown(b, c, p, m.frames[FrameOf(Pte(m, d, p))]);
            Inv(n) && Space(n, c) && CopiedTo(m, n, d, c, p + 1, data)
  {
    var page := m.frames[FrameOf(Pte(m, d, p))];
    CopiedIs(m, b, d, c, p, data);
    GrownKeeps(b, c, p, page);
    GrownAccounted(b, c, p, page);
    InvShape(m);
    InvShape(b);
    var n := Grown(b, c, p, page);
    hide Inv, Pte, HasTable, Mapped, Grown, CopyOf, Accounted, Untouched, Entry, KernelPte, CopiedTo;
    NoFrames(m, b);
    CopiedFrames(m, b, d, c, p, data);
    CopyFramesNext(m, b, n, c, p);
    CopiedToNext(m, b, n, d, c, p, data, page);
  }

  lemma CopiedFrames(m: Vm, b: Vm, d: nat, c: nat, p: nat, data: nat)
    requires Shape(m) && Shape(b) && d < NFRAMES && p <= USERPAGES && CopiedTo(m, b, d, c, p, data)
    ensures c < NFRAMES && CopyFrames(m, b, c, p)
  {
  }

  lemma CopiedIs(m: Vm, b: Vm, d: nat, c: nat, p: nat, data: nat)
    requires Shape(m) && Shape(b) && d < NFRAMES && p < USERPAGES && CopiedTo(m, b, d, c, p, data)
    ensures c < NFRAMES && !Mapped(b, c, p)
  {
    hide Pte;
    if c < NFRAMES {
      MappedIff(b, c, p);
    }
  }

  lemma NoFrames(m: Vm, b: Vm)
    requires Inv(m) && Inv(b)
    ensures NFRAMES !in m.free && NFRAMES !in b.role
  {
  }

  lemma GrownAccounted(m: Vm, d: nat, p: nat, page: Page)
    requires Inv(m) && Space(m, d) && p < USERPAGES && m.free != [] && (HasTable(m, d, p) || |m.free| > 1)
    requires !Mapped(m, d, p)
    ensures Accounted(m, Grown(m, d, p, page), d, NFRAMES)
  {
    var f := m.free[0];
    FilledInv(m, d, page);
    var z := Filled(m, page);
    UserPageMapped(z, d, p, f, PERM_WU);
    GrownKeeps(m, d, p, page);
    hide Inv, Pte, HasTable, Mapped, Filled, Grown, Untouched;
    AccountedFrom(m, z, Grown(m, d, p, page), d, p, f);
  }

  lemma AccountedFrom(m: Vm, z: Vm, n: Vm, d: nat, p: nat, f: nat)
    requires m.free != [] && f == m.free[0] && f !in m.role && z.free == m.free[1..] && z.role == m.role[f := Loose]
    requires Accounted(z, n, d, f) && f in n.role && n.role[f] == User(d, p)
    ensures Accounted(m, n, d, NFRAMES)
  {
    assert m.free == [f] + z.free;
    assert Belongs(n, f, d);
    forall x | Belongs(m, x, d) ensures Belongs(z, x, d) {
    }
    hide Belongs;
  }

  lemma CopiedToNext(m: Vm, b: Vm, n: Vm, d: nat, c: nat, p: nat, data: nat, page: Page)
    requires Shape(m) && Shape(b) && Shape(n) && d < NFRAMES && p < USERPAGES && CopiedTo(m, b, d, c, p, data)
    requires NFRAMES !in m.free && NFRAMES !in b.role && c < NFRAMES && CopyFrames(m, n, c, p + 1)
    requires Untouched(b, n, c) && Accounted(b, n, c, NFRAMES) && b.free != [] && b.free[0] < NFRAMES
    requires b.free[0] !in b.role
    requires b.role.Keys <= n.role.Keys
    requires b.free[0] in n.role && n.role[b.free[0]] == User(c, p) && n.frames[b.free[0]] == page
    requires Mapped(m, d, p) && FrameOf(Pte(m, d, p)) < NFRAMES && page == m.frames[FrameOf(Pte(m, d, p))]
    requires forall q :: 0 <= q < ALLPAGES ==>
               Pte(n, c, q) == if q == p then Entry(b.free[0], PERM_WU) else Pte(b, c, q)
    ensures CopiedTo(m, n, d, c, p + 1, data)
  {
    hide Pte, HasTable, Mapped, CopyOf, Accounted, Untouched, KernelPte, Belongs, CopyFrames;
    UntouchedOnce(m, b, n, c);
    AccountedThen(m, b, n, c, NFRAMES);
    forall q | 0 <= q < p ensures CopyOf(m, n, d, c, q) {
      CopyKept(m, b, n, d, c, q);
    }
    CopyAt(m, b, n, d, c, p);
  }

  lemma CopyKept(m: Vm, b: Vm, n: Vm, d: nat, c: nat, q: nat)
    requires Shape(m) && Shape(b) && Shape(n) && d < NFRAMES && c < NFRAMES && q < ALLPAGES
    requires CopyOf(m, b, d, c, q) && Untouched(b, n, c) && Pte(n, c, q) == Pte(b, c, q)
    ensures CopyOf(m, n, d, c, q)
  {
    MappedIff(b, c, q);
    MappedIff(n, c, q);
    hide Pte, Mapped;
  }

  lemma CopyAt(m: Vm, b: Vm, n: Vm, d: nat, c: nat, p: nat)
    requires Shape(m) && Shape(b) && Shape(n) && d < NFRAMES && c < NFRAMES && p < ALLPAGES
    requires b.free != [] && b.free[0] < NFRAMES && b.free[0] !in m.role && Pte(n, c, p) == Entry(b.free[0], PERM_WU)
    requires Mapped(m, d, p) && FrameOf(Pte(m, d, p)) < NFRAMES
    requires b.free[0] in n.role && n.role[b.free[0]] == User(c, p)
    requires n.frames[b.free[0]] == m.frames[FrameOf(Pte(m, d, p))]
    ensures CopyOf(m, n, d, c, p)
  {
    MappedIff(n, c, p);
    hide Pte, Mapped;
  }

  /** Everything that was in use still is, unchanged. */
  ghost predicate Kept(m: Vm, n: Vm)
    requires Shape(m) && Shape(n)
  {
    forall x :: x in m.role ==>
      x in n.role && n.role[x] == m.role[x] && x < NFRAMES && n.frames[x] == m.frames[x]
  }

  lemma CopyDropped(m: Vm, b: Vm, d: nat, c: nat, p: nat, data: nat)
    requires Inv(m) && Inv(b) && d < NFRAMES && p <= USERPAGES && CopiedTo(m, b, d, c, p, data)
    ensures Kept(m, b) && Accounted(m, b, c, NFRAMES) && c !in m.role
  {
    SpaceDropped(m, b, c);
  }

  /** The frame for a page is taken, but there is none for its table. */
  lemma CopyStuck(m: Vm, b: Vm, d: nat, c: nat, page: Page)
    requires Inv(m) && Inv(b) && Space(b, c) && Kept(m, b) && Accounted(m, b, c, NFRAMES) && c !in m.role
    requires b.free != []
    ensures b.free[0] < NFRAMES && Inv(Filled(b, page)) && Space(Filled(b, page), c)
    ensures Kept(m, Filled(b, page)) && Accounted(m, Filled(b, page), c, b.free[0]) && b.free[0] in m.free
    ensures b.free[0] in Filled(b, page).role && Filled(b, page).role[b.free[0]] == Loose
  {
    FilledInv(b, c, page);
    InvShape(m);
    InvShape(b);
    NoFrames(m, b);
    StuckKept(m, b, Filled(b, page), c, page);
  }

  lemma StuckKept(m: Vm, b: Vm, n: Vm, c: nat, page: Page)
    requires Shape(m) && Shape(b) && Shape(n) && Kept(m, b) && Accounted(m, b, c, NFRAMES) && NFRAMES !in m.free
    requires NFRAMES !in b.role
    requires b.free != [] && b.free[0] < NFRAMES && b.free[0] !in b.role && n.free == b.free[1..]
    requires n.role == b.role[b.free[0] := Loose] && n.frames == b.frames[b.free[0] := page]
    ensures Kept(m, n) && Accounted(m, n, c, b.free[0])
  {
    assert b.free == [b.free[0]] + n.free;
    forall x ensures Belongs(b, x, c) <==> Belongs(n, x, c) {
    }
    hide Belongs;
  }

  // ----- how copyuvm ends -----

  lemma CopyFinished(m: Vm, n: Vm, d: nat, c: nat, p: nat, data: nat)
    requires Shape(m) && Shape(n) && d < NFRAMES && p <= USERPAGES && CopiedTo(m, n, d, c, p, data)
    ensures NoHole(m, d, p) && |m.free| >= KERNELFRAMES + CopyCost(p)
    ensures forall h :: !FirstHole(m, d, p, h)
  {
    hide Mapped;
    forall q | 0 <= q < p ensures Mapped(m, d, q) {
      assert CopyOf(m, n, d, c, q);
    }
  }

  lemma HoleFound(m: Vm, b: Vm, d: nat, c: nat, p: nat, data: nat, n: nat)
    requires Shape(m) && Shape(b) && d < NFRAMES && p < n <= USERPAGES && CopiedTo(m, b, d, c, p, data)
    requires !Mapped(m, d, p)
    ensures FirstHole(m, d, n, p) && |m.free| >= KERNELFRAMES + CopyCost(p) && !NoHole(m, d, n)
  {
    hide Mapped, CopiedTo;
    CopyFinished(m, b, d, c, p, data);
  }

  /** The loop stops at page p for want of a frame. */
  lemma StoppedCopying(m: Vm, b: Vm, d: nat, c: nat, p: nat, data: nat, n: nat)
    requires Shape(m) && Shape(b) && d < NFRAMES && c < NFRAMES && p < n <= USERPAGES && CopiedTo(m, b, d, c, p, data)
    requires b.free == [] || (|b.free| == 1 && !HasTable(b, c, p))
    requires Mapped(m, d, p)
    ensures KERNELFRAMES <= |m.free| < KERNELFRAMES + CopyCost(n)
    ensures forall h :: FirstHole(m, d, n, h) ==> |m.free| < KERNELFRAMES + CopyCost(h)
    ensures b.free != [] <==> OneShort(|m.free|)
  {
    hide HasTable, Mapped;
    CopyFinished(m, b, d, c, p, data);
    CopiedFrames(m, b, d, c, p, data);
    hide CopiedTo;
    CopyCostGrows(p);
    if b.free != [] {
      assert p % ENTRIES == 0;
    }
    forall q: nat | q % ENTRIES == 0 && CopyCost(q) + KERNELFRAMES + 1 == |m.free| ensures b.free != [] {
      CopyCostGrows(q);
    }
    forall h: nat | FirstHole(m, d, n, h) ensures h > p {
    }
  }

  /** What a copyuvm that fails has left of the free list. */
  ghost predicate GivenBack(m: Vm, n: Vm) {
    if |m.free| < KERNELFRAMES then n.free == []
    else if OneShort(|m.free|) then exists lost :: lost in m.free && AllBut(m.free, n.free, lost)
    else AllBut(m.free, n.free, NFRAMES)
  }

  ghost predicate AllBut(was: seq<nat>, now: seq<nat>, lost: nat) {
    forall x :: x in was ==> (x in now <==> x != lost)
  }

  /** freevm of the child gives back all it took, but for the frame of a failed mappages. */
  lemma CopyUndone(m: Vm, b: Vm, n: Vm, c: nat, lost: nat)
    requires Inv(m) && Inv(b) && Inv(n) && Kept(m, b) && Accounted(m, b, c, lost) && c !in m.role && SpaceFreed(b, n, c)
    requires lost == NFRAMES || (lost in b.role && b.role[lost] == Loose)
    ensures Kept(m, n)
    ensures AllBut(m.free, n.free, lost)
  {
    NotBelongs(m, c);
    InvShape(m);
    assert lost !in b.free && !Belongs(b, lost, c) by {
      InvShape(b);
    }
    hide Inv;
    forall x | x in m.role ensures !Belongs(b, x, c) {
      assert !Belongs(m, x, c);
    }
    hide Belongs;
  }
}
