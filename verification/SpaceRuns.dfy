/** The address spaces of processes over a run: growproc, the copy of fork, the end of a process. Each has
    a size, and its pages are those below it, until one of two things happens that growproc does wrong. */
module SpaceRuns {
  import opened Basics
  import opened PageTables
  import opened PageSteps
  import opened PageUses
  import opened PageRanges
  import opened PageFreeing
  import opened SpaceFreeing
  import opened PageGrowing
  import opened SpaceCopying
  import opened Paging

  /** proc->sz + n, as a uint. */
  function NewSize(sz: Word, n: int): Word {
    (sz + n) % 0x1_0000_0000
  }

  /** allocuvm reports success, but has had no frame for the table of the last page. */
  ghost predicate GrowsStuck(m: Vm, d: nat, sz: Word, n: int)
    requires Shape(m) && d < NFRAMES
  {
    var lo, hi := Up(sz), Up(NewSize(sz, n));
    && n > 0 && sz <= NewSize(sz, n) < KERNBASE
    && |m.free| == Cost(m, d, lo, hi) - 1 && lo < hi && NewTable(m, d, lo, hi - 1)
  }

  /** deallocuvm frees everything and answers 0, which growproc takes for a failure and keeps the size. */
  predicate ShrinksToNothing(sz: Word, n: int) {
    n < 0 && 0 < sz && NewSize(sz, n) == 0
  }

  /** allocuvm has the frames. */
  ghost predicate GrowsWell(m: Vm, d: nat, sz: Word, n: int)
    requires Shape(m) && d < NFRAMES
  {
    NewSize(sz, n) < KERNBASE && |m.free| >= Cost(m, d, Up(sz), Up(NewSize(sz, n)))
  }

  /** What deallocuvm answers. */
  function Shrunk(sz: Word, n: int): Word {
    if NewSize(sz, n) >= sz then sz else NewSize(sz, n)
  }

  /** What growproc(n) answers for a space of sz bytes that was not broken, the size it leaves, and whether
      the space is broken then: a page below its size is missing. */
  ghost predicate Answered(m: Vm, r: Vm, d: nat, sz: Word, n: int, ok: bool, sz': Word, broken: bool)
    requires Shape(m) && Shape(r) && d < NFRAMES
  {
    && (ok <==> if n > 0 then GrowsWell(m, d, sz, n) || GrowsStuck(m, d, sz, n) else n == 0 || Shrunk(sz, n) != 0)
    && sz' == (if !ok then sz else if n > 0 then NewSize(sz, n) else Shrunk(sz, n))
    && (broken <==> GrowsStuck(m, d, sz, n) || ShrinksToNothing(sz, n))
    && (if broken then !NoHole(r, d, Up(sz')) else Prefix(r, d, Up(sz')))
  }

  lemma StaysSame(m: Vm, d: nat, sz: Word)
    requires Shape(m) && d < NFRAMES
    ensures Prefix(m, d, Up(sz)) ==> Answered(m, m, d, sz, 0, true, sz, false)
  {
    hide Prefix;
  }

  // ----- the spaces -----

  /** d is an address space, and unless it is broken its pages are those below its size. */
  ghost predicate SpaceOk(m: Vm, d: nat, sz: Word, broken: bool)
    requires Shape(m)
  {
    Space(m, d) && d < NFRAMES && sz <= KERNBASE && (!broken ==> Prefix(m, d, Up(sz)))
  }

  ghost predicate SpacesOk(m: Vm, size: map<nat, Word>, broken: set<nat>)
    requires Shape(m)
  {
    forall d :: d in size ==> SpaceOk(m, d, size[d], d in broken)
  }

  class Spaces {
    const mem: Memory
    var size: map<nat, Word>   // proc->sz for each page directory in use
    ghost var broken: set<nat> // the spaces to which one of those things has happened

    ghost predicate Valid()
      reads this, mem
    {
      Inv(mem.State()) && 256 < mem.data < NFRAMES && SpacesOk(mem.State(), size, broken)
    }

    constructor (mem: Memory)
      requires Inv(mem.State()) && 256 < mem.data < NFRAMES
      ensures Valid() && size == map[] && broken == {} && this.mem == mem
    {
      this.mem, size, broken := mem, map[], {};
    }

    /** setupkvm for a new program. */
    method Make() returns (ok: bool, d: nat)
      requires Valid()
      modifies this, mem
      ensures Valid()
      ensures ok <==> |old(mem.State()).free| >= KERNELFRAMES
      ensures ok ==> d !in old(size) && size == old(size)[d := 0] && broken == old(broken) - {d}
      ensures !ok ==> size == old(size) && broken == old(broken)
      ensures Shape(old(mem.State())) && Shape(mem.State()) && Kept(old(mem.State()), mem.State())
    {
      hide Inv, SpaceOk, MadeSpace, Kept;
      ghost var m := mem.State();
      InvShape(m);
      var pd := mem.Setupkvm();
      ok, d := pd != 0, 0;
      InvShape(mem.State());
      if ok {
        d := (pd - KERNBASE) / PGSIZE;
        MadeFresh(m, mem.State(), d, mem.data, size, broken);
        size := size[d := 0];
        broken := broken - {d};
      } else {
        AllKept(m, mem.State(), size, broken);
      }
    }

    /** growproc(n) of a process whose space is d. */
    method Growproc(d: nat, n: int) returns (ok: bool, panicked: bool)
      requires Valid() && d in size && -0x8000_0000 <= n < 0x8000_0000
      modifies this, mem
      ensures panicked ==> d in old(broken)
      ensures !panicked ==> Valid() && size.Keys == old(size).Keys
      ensures !panicked ==> forall e :: e in size && e != d ==> size[e] == old(size)[e]
      ensures !panicked && d in old(broken) ==> broken == old(broken)
      ensures !panicked ==>
                Shape(old(mem.State())) && Shape(mem.State()) && KeptBut(old(mem.State()), mem.State(), d)
      ensures d !in old(broken) ==>
                var m, sz := old(mem.State()), old(size)[d];
                && Shape(m) && Shape(mem.State()) && d < NFRAMES && !panicked
                && Answered(m, mem.State(), d, sz, n, ok, size[d], d in broken)
                && size == old(size)[d := size[d]] && broken == old(broken) + (if d in broken then {d} else {})
    {
      hide Inv, SpaceOk, Prefix, GrowsWell, GrowsStuck, Answered, Clear, Mapped, Pte, HasTable, Skipped, NothingAdded,
        Untouched, GrownTo, Stuck, Cost, KeptBut, Freed, FirstMapped, NewTable, ShrinksToNothing;
      ghost var m := mem.State();
      var sz := size[d];
      InvShape(m);
      SpaceIs(m, size, broken, d);
      StaysSame(m, d, sz);
      KeptSame(m, d);
      ok, panicked := true, false;
      if n > 0 {
        var s;
        s, panicked := mem.Allocuvm(d, sz, NewSize(sz, n));
        if !panicked {
          InvShape(mem.State());
        }
        Grew(m, mem.State(), d, sz, n, s, panicked, size, broken);
        if panicked {
          return;
        }
        ok := s != 0;
        if ok {
          size := size[d := s];
        }
        if d !in broken && GrowsStuck(m, d, sz, n) {
          broken := broken + {d};
        }
      } else if n < 0 {
        var s := mem.Deallocuvm(d, sz, NewSize(sz, n));
        Shrank(m, mem.State(), d, sz, n, s, size, broken);
        ok := s != 0;
        if ok {
          size := size[d := s];
        }
        if d !in broken && ShrinksToNothing(sz, n) {
          broken := broken + {d};
        }
      }
    }

    /** The copy that fork makes of space d; a broken space can make copyuvm panic, no other. */
    method Fork(d: nat) returns (ok: bool, panicked: bool, c: nat)
      requires Valid() && d in size
      modifies this, mem
      ensures Valid()
      ensures panicked ==> d in old(broken)
      ensures var m, sz := old(mem.State()), old(size)[d];
              && Shape(m) && d < NFRAMES && sz <= KERNBASE
              && (panicked <==>
                  exists h :: FirstHole(m, d, Up(sz), h) && |m.free| >= KERNELFRAMES + CopyCost(h))
      ensures d !in old(broken) ==> (ok <==> |old(mem.State()).free| >= KERNELFRAMES + CopyCost(Up(old(size)[d])))
      ensures ok ==> c !in old(size) && size == old(size)[c := old(size)[d]] && broken == old(broken) - {c}
      ensures !ok ==> size == old(size) && broken == old(broken)
      ensures Shape(old(mem.State())) && Shape(mem.State()) && Kept(old(mem.State()), mem.State())
    {
      hide Inv, SpaceOk, Prefix, CopiedTo, NoHole, CopyCost;
      ghost var m := mem.State();
      var sz := size[d];
      InvShape(m);
      SpaceIs(m, size, broken, d);
      if d !in broken {
        NoHoleBelow(m, d, Up(sz));
      }
      var pd;
      pd, panicked := mem.Copyuvm(d, sz);
      ok, c := pd != 0, 0;
      InvShape(mem.State());
      if ok {
        c := (pd - KERNBASE) / PGSIZE;
        CopyFresh(m, mem.State(), d, c, sz, mem.data, size, broken);
        size := size[c := sz];
        broken := broken - {c};
      } else {
        AllKept(m, mem.State(), size, broken);
      }
    }

    /** freevm, when a process is reaped or execs. */
    method Drop(d: nat)
      requires Valid() && d in size
      modifies this, mem
      ensures Valid() && size == old(size) - {d} && broken == old(broken) - {d}
      ensures Shape(old(mem.State())) && Shape(mem.State()) && KeptBut(old(mem.State()), mem.State(), d)
    {
      hide Inv, SpaceOk, SpaceFreed, KeptBut;
      ghost var m := mem.State();
      InvShape(m);
      SpaceIs(m, size, broken, d);
      mem.Freevm(d);
      InvShape(mem.State());
      FreedKept(m, mem.State(), d);
      SpacesKept(m, mem.State(), d, size, broken);
      size := size - {d};
      broken := broken - {d};
    }
  }

  // ----- what each step does to the spaces -----

  lemma SpaceIs(m: Vm, size: map<nat, Word>, broken: set<nat>, d: nat)
    requires Shape(m) && SpacesOk(m, size, broken) && d in size
    ensures Space(m, d) && d < NFRAMES && size[d] <= KERNBASE && (d !in broken ==> Prefix(m, d, Up(size[d])))
  {
    assert SpaceOk(m, d, size[d], d in broken);
  }

  lemma PrefixKept(m: Vm, n: Vm, d: nat, e: nat, k: nat)
    requires Inv(m) && Inv(n) && KeptBut(m, n, d) && Space(m, e) && e != d && e < NFRAMES && Prefix(m, e, k)
    ensures Prefix(n, e, k)
  {
    InvShape(m);
    InvShape(n);
    hide Inv, KeptBut;
    forall p | 0 <= p < USERPAGES ensures Mapped(n, e, p) <==> p < k {
      SpaceKept(m, n, d, e, p);
      MappedIff(m, e, p);
      MappedIff(n, e, p);
    }
    hide Mapped, Pte;
  }

  lemma SpacesKept(m: Vm, n: Vm, d: nat, size: map<nat, Word>, broken: set<nat>)
    requires Inv(m) && Inv(n) && KeptBut(m, n, d) && SpacesOk(m, size, broken)
    ensures Shape(n) && forall e :: e in size && e != d ==> SpaceOk(n, e, size[e], e in broken)
  {
    InvShape(m);
    InvShape(n);
    hide Inv, KeptBut, Prefix;
    forall e | e in size && e != d ensures SpaceOk(n, e, size[e], e in broken) {
      assert SpaceOk(m, e, size[e], e in broken);
      SpaceKept(m, n, d, e, 0);
      if e !in broken {
        PrefixKept(m, n, d, e, Up(size[e]));
      }
    }
  }

  /** Nothing in use has changed. */
  lemma AllKept(m: Vm, n: Vm, size: map<nat, Word>, broken: set<nat>)
    requires Inv(m) && Inv(n) && SpacesOk(m, size, broken)
    requires forall x :: x in m.role ==>
               x in n.role && n.role[x] == m.role[x] && x < NFRAMES && n.frames[x] == m.frames[x]
    ensures SpacesOk(n, size, broken) && Kept(m, n)
  {
    InvShape(m);
    InvShape(n);
    hide Inv, Prefix, SpaceOk;
    assert KeptBut(m, n, NFRAMES);
    SpacesKept(m, n, NFRAMES, size, broken);
    forall e | e in size ensures e != NFRAMES {
      SpaceIs(m, size, broken, e);
    }
  }

  lemma MadeFresh(m: Vm, n: Vm, d: nat, data: nat, size: map<nat, Word>, broken: set<nat>)
    requires Inv(m) && Inv(n) && SpacesOk(m, size, broken) && MadeSpace(m, n, d, data)
    ensures d !in size && SpacesOk(n, size[d := 0], broken - {d}) && Kept(m, n)
  {
    InvShape(m);
    InvShape(n);
    MadeTakes(m, n, d, data);
    SpaceDropped(m, n, d);
    NewcomerIs(m, n, d, size, broken);
    assert SpaceOk(n, d, 0, false) by {
      forall p | 0 <= p < USERPAGES ensures !Mapped(n, d, p) {
        PteIs(n, d, p);
        MappedIff(n, d, p);
      }
    }
    hide Inv, Prefix, SpaceOk, MadeSpace;
    AllKept(m, n, size, broken);
    forall e | e in size[d := 0] ensures SpaceOk(n, e, size[d := 0][e], e in broken - {d}) {
      if e != d {
        assert SpaceOk(n, e, size[e], e in broken);
      }
    }
  }

  lemma NewcomerIs(m: Vm, n: Vm, d: nat, size: map<nat, Word>, broken: set<nat>)
    requires Shape(m) && SpacesOk(m, size, broken) && d !in m.role
    ensures d !in size
  {
    if d in size {
      SpaceIs(m, size, broken, d);
    }
  }

  lemma CopyFresh(m: Vm, n: Vm, d: nat, c: nat, sz: Word, data: nat, size: map<nat, Word>, broken: set<nat>)
    requires Inv(m) && Inv(n) && d < NFRAMES && sz <= KERNBASE && SpacesOk(m, size, broken)
    requires Kept(m, n) && CopiedTo(m, n, d, c, Up(sz), data) && Space(n, c)
    ensures c !in size && SpacesOk(n, size[c := sz], broken - {c})
  {
    InvShape(m);
    InvShape(n);
    CopyPrefix(m, n, d, c, Up(sz), data);
    NewcomerIs(m, n, c, size, broken);
    hide Inv, Prefix, CopiedTo;
    AllKept(m, n, size, broken);
    forall e | e in size[c := sz] ensures SpaceOk(n, e, size[c := sz][e], e in broken - {c}) {
      if e != c {
        assert SpaceOk(n, e, size[e], e in broken);
      }
    }
  }

  lemma CopyPrefix(m: Vm, n: Vm, d: nat, c: nat, p: nat, data: nat)
    requires Shape(m) && Shape(n) && d < NFRAMES && p <= USERPAGES && CopiedTo(m, n, d, c, p, data)
    ensures c < NFRAMES && c !in m.role && Prefix(n, c, p)
  {
    forall q | 0 <= q < USERPAGES ensures Mapped(n, c, q) <==> q < p {
      MappedIff(n, c, q);
      if q < p {
        assert CopyOf(m, n, d, c, q);
      }
    }
    hide Pte;
  }

  lemma NoHoleBelow(m: Vm, d: nat, n: nat)
    requires Shape(m) && d < NFRAMES && Prefix(m, d, n)
    ensures NoHole(m, d, n) && forall h :: !FirstHole(m, d, n, h)
  {
    hide Mapped;
  }

  /** growproc upwards, from what allocuvm says. */
  lemma Grew(m: Vm, n: Vm, d: nat, sz: Word, k: int, s: Word, panicked: bool, size: map<nat, Word>, broken: set<nat>)
    requires Inv(m) && SpacesOk(m, size, broken) && d in size && size[d] == sz && 0 < k < 0x8000_0000 && d < NFRAMES
    requires sz <= KERNBASE
    requires NewSize(sz, k) >= KERNBASE ==> s == 0 && n == m
    requires !panicked ==> Shape(n)
    requires panicked ==>
               && NewSize(sz, k) < KERNBASE
               && exists r :: FirstMapped(m, d, Up(sz), Up(NewSize(sz, k)), r)
    requires !panicked ==>
               && Inv(n) && Space(n, d) && KeptBut(m, n, d)
               && forall q :: 0 <= q < USERPAGES && !(Up(sz) <= q < Up(NewSize(sz, k))) ==> Pte(n, d, q) == Pte(m, d, q)
    requires NewSize(sz, k) < KERNBASE && Clear(m, d, Up(sz), Up(NewSize(sz, k))) && !panicked ==>
               var lo, hi := Up(sz), Up(NewSize(sz, k));
               if |m.free| >= Cost(m, d, lo, hi) then s == NewSize(sz, k) && GrownTo(m, n, d, lo, hi)
               else if |m.free| == Cost(m, d, lo, hi) - 1 && NewTable(m, d, lo, hi - 1)
               then s == NewSize(sz, k) && Stuck(m, n, d, lo, hi)
               else s == 0 && Clear(n, d, lo, hi)
    requires NewSize(sz, k) < KERNBASE && !Clear(m, d, Up(sz), Up(NewSize(sz, k))) && !panicked ==> s == 0
    ensures panicked ==> d in broken
    ensures !panicked ==>
              && Shape(n)
              && SpacesOk(n, if s != 0 then size[d := s] else size,
                          if d !in broken && GrowsStuck(m, d, sz, k) then broken + {d} else broken)
    ensures d !in broken ==>
              && !panicked && Answered(m, n, d, sz, k, s != 0, if s != 0 then s else sz, GrowsStuck(m, d, sz, k))
  {
    var lo, hi := Up(sz), Up(NewSize(sz, k));
    InvShape(m);
    SpaceIs(m, size, broken, d);
    hide Inv, Pte, HasTable, KeptBut, SpaceOk, SpacesOk, Stuck, GrownTo, Cost, NewTable;
    if d !in broken {
      ClearAbove(m, d, lo, NewSize(sz, k));
    }
    if !panicked {
      InvShape(n);
      SpacesKept(m, n, d, size, broken);
      if d !in broken {
        GrewTo(m, n, d, sz, k, s);
      }
      SpaceSized(n, d, if s != 0 then s else sz, d in broken || GrowsStuck(m, d, sz, k));
      OneChanged(n, d, size, broken, if s != 0 then s else sz,
                 if d !in broken && GrowsStuck(m, d, sz, k) then broken + {d} else broken);
      assert size[d := sz] == size;
    }
  }

  lemma OneChanged(n: Vm, d: nat, size: map<nat, Word>, broken: set<nat>, sz: Word, broken': set<nat>)
    requires Shape(n) && d in size && (forall e :: e in size && e != d ==> SpaceOk(n, e, size[e], e in broken))
    requires SpaceOk(n, d, sz, d in broken') && broken <= broken' <= broken + {d}
    ensures SpacesOk(n, size[d := sz], broken')
  {
    hide SpaceOk;
  }

  lemma ClearAbove(m: Vm, d: nat, lo: nat, size: Word)
    requires Shape(m) && d < NFRAMES && Prefix(m, d, lo)
    ensures size < KERNBASE ==> Clear(m, d, lo, Up(size)) && forall r :: !FirstMapped(m, d, lo, Up(size), r)
  {
    hide Mapped;
  }

  /** The space itself, if it was not broken. */
  lemma GrewTo(m: Vm, n: Vm, d: nat, sz: Word, k: int, s: Word)
    requires Shape(m) && Shape(n) && d < NFRAMES && sz <= KERNBASE && 0 < k < 0x8000_0000 && Prefix(m, d, Up(sz))
    requires NewSize(sz, k) >= KERNBASE ==> s == 0 && n == m
    requires forall q :: 0 <= q < USERPAGES && !(Up(sz) <= q < Up(NewSize(sz, k))) ==> Pte(n, d, q) == Pte(m, d, q)
    requires NewSize(sz, k) < KERNBASE ==>
               var lo, hi := Up(sz), Up(NewSize(sz, k));
               if |m.free| >= Cost(m, d, lo, hi) then s == NewSize(sz, k) && GrownTo(m, n, d, lo, hi)
               else if |m.free| == Cost(m, d, lo, hi) - 1 && NewTable(m, d, lo, hi - 1)
               then s == NewSize(sz, k) && Stuck(m, n, d, lo, hi)
               else s == 0 && Clear(n, d, lo, hi)
    ensures s != 0 <==> GrowsWell(m, d, sz, k) || GrowsStuck(m, d, sz, k)
    ensures s != 0 ==> s == NewSize(sz, k) < KERNBASE
    ensures if GrowsStuck(m, d, sz, k) then !NoHole(n, d, Up(s)) else Prefix(n, d, Up(if s != 0 then s else sz))
  {
    var lo, hi := Up(sz), Up(NewSize(sz, k));
    hide HasTable, Pte, Cost, NewTable;
    assert NewSize(sz, k) == sz + k;
    if NewSize(sz, k) < KERNBASE {
      if |m.free| >= Cost(m, d, lo, hi) {
        GrownPrefix(m, n, d, lo, hi);
      } else if s != 0 {
        StuckHole(m, n, d, lo, hi);
      } else {
        SamePrefix(m, n, d, lo, hi);
      }
    }
  }

  /** A page that had no frame for its table is a hole. */
  lemma StuckHole(m: Vm, n: Vm, d: nat, lo: nat, hi: nat)
    requires Shape(m) && Shape(n) && d < NFRAMES && Stuck(m, n, d, lo, hi) && Prefix(m, d, lo) && lo < hi <= USERPAGES
    ensures !NoHole(n, d, hi)
  {
    AddedMapped(m, n, d, lo, hi - 1, hi - 1);
    hide Mapped, Pte, HasTable, Cost;
    assert !Mapped(n, d, hi - 1);
  }

  lemma SamePrefix(m: Vm, n: Vm, d: nat, lo: nat, hi: nat)
    requires Shape(m) && Shape(n) && d < NFRAMES && Prefix(m, d, lo) && lo <= hi <= USERPAGES && Clear(n, d, lo, hi)
    requires forall q :: 0 <= q < USERPAGES && !(lo <= q < hi) ==> Pte(n, d, q) == Pte(m, d, q)
    ensures Prefix(n, d, lo)
  {
    forall q | 0 <= q < USERPAGES ensures Mapped(n, d, q) <==> q < lo {
      MappedIff(m, d, q);
      MappedIff(n, d, q);
    }
    hide Pte, Mapped;
  }

  /** growproc downwards, from what deallocuvm says. */
  lemma Shrank(m: Vm, n: Vm, d: nat, sz: Word, k: int, s: Word, size: map<nat, Word>, broken: set<nat>)
    requires Inv(m) && SpacesOk(m, size, broken) && d in size && size[d] == sz && -0x8000_0000 <= k < 0
    requires Space(m, d) && d < NFRAMES && s == Shrunk(sz, k)
    requires NewSize(sz, k) >= sz ==> n == m
    requires NewSize(sz, k) < sz ==> Freed(m, n, d, Up(NewSize(sz, k)), Up(sz))
    ensures Inv(n) && Shape(n) && KeptBut(m, n, d)
    ensures SpacesOk(n, if s != 0 then size[d := s] else size,
                     if d !in broken && ShrinksToNothing(sz, k) then broken + {d} else broken)
    ensures d !in broken ==> Answered(m, n, d, sz, k, s != 0, if s != 0 then s else sz, ShrinksToNothing(sz, k))
  {
    InvShape(m);
    SpaceIs(m, size, broken, d);
    KeptSame(m, d);
    assert size[d := sz] == size;
    if NewSize(sz, k) < sz {
      var lo, hi := Up(NewSize(sz, k)), Up(sz);
      FreedInv(m, n, d, lo, hi);
      InvShape(n);
      FreedKeptBut(m, n, d, lo, hi);
      if d !in broken {
        PrefixShrinks(m, n, d, lo, hi, hi);
      }
      hide Inv, KeptBut, SpaceOk, Freed, Mapped;
      SpacesKept(m, n, d, size, broken);
      if d !in broken && ShrinksToNothing(sz, k) {
        assert !NoHole(n, d, hi) by {
          assert !Mapped(n, d, 0);
        }
      }
      SpaceSized(n, d, if s != 0 then s else sz, d in broken || ShrinksToNothing(sz, k));
      OneChanged(n, d, size, broken, if s != 0 then s else sz,
                 if d !in broken && ShrinksToNothing(sz, k) then broken + {d} else broken);
    }
  }

  lemma SpaceSized(n: Vm, d: nat, sz: Word, broken: bool)
    requires Shape(n) && Space(n, d) && d < NFRAMES && sz <= KERNBASE && (!broken ==> Prefix(n, d, Up(sz)))
    ensures SpaceOk(n, d, sz, broken)
  {
  }
}
