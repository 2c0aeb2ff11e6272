/** umalloc.c: the first-fit allocator of user programs. Addresses are in units of one header,
    8 bytes; block headers are the only heap contents modelled. */
module Umalloc {
  import opened Basics
  import opened HeapBlocks

  const WORD: nat := 0x1_0000_0000
  const MIN_UNITS: nat := 4096

  /** freep is 0 before the first malloc. */
  datatype Arena = Arena(hdr: map<nat, Header>, freep: nat, brk: nat)

  /** What the headers stand for. */
  datatype View = View(free: seq<Block>, alloc: map<nat, nat>, owned: set<nat>)

  /** What malloc comes to: a block, 0, or writing to memory that sbrk has not given it. */
  datatype Answer = Given(ap: nat) | Refused | Astray

  /** nunits, with the wrap-around of uint. */
  function Units(nbytes: nat): (n: nat)
    ensures 0 < n <= 0x2000_0000
  {
    (nbytes + 7) % WORD / 8 + 1
  }

  /** What morecore asks sbrk for, in bytes, as the int sbrk takes. */
  function Request(nunits: nat): (n: int)
  {
    var bytes := (if nunits < MIN_UNITS then MIN_UNITS else nunits) * 8 % WORD;
    if bytes < 0x8000_0000 then bytes else bytes - WORD
  }

  /** The block for nbytes holds them unless the rounding up wrapped. */
  lemma UnitsHold(nbytes: nat)
    requires nbytes < WORD
    ensures (Units(nbytes) - 1) * 8 >= nbytes <==> nbytes <= WORD - 8
    ensures (Units(nbytes) - 2) * 8 < nbytes || nbytes == 0
  {
  }

  lemma LastBytesGetNothing()
    ensures Units(0xFFFF_FFFF) == 1
  {
  }

  /** sbrk is asked to grow the heap by what is needed just for requests below 2 GB. */
  lemma RequestSane(nbytes: nat)
    requires nbytes < WORD
    ensures Request(Units(nbytes)) > 0 <==> nbytes <= 0x7FFF_FFF0 || nbytes > WORD - 8
    ensures nbytes <= 0x7FFF_FFF0 ==> Request(Units(nbytes)) == Max(32768, 8 * ((nbytes + 7) / 8 + 1))
    ensures nbytes > WORD - 8 ==> Request(Units(nbytes)) == 32768
  {
  }

  ghost predicate HeapOk(base: nat, a: Arena, v: View) {
    && 0 < base < a.brk && base in a.hdr
    && if v.free == [] then a.freep == 0 && v.alloc == map[] && v.owned == {}
       else
         && Ordered(v.free, base) && Linked(a.hdr, v.free) && Allocated(a.hdr, v.free, v.alloc, base, a.brk)
         && Partition(v.free, v.alloc, v.owned)
         && exists k :: 0 <= k < |v.free| && v.free[k].addr == a.freep
  }

  /** Some free block is large enough. */
  ghost predicate HasFit(v: View, n: nat) {
    exists i :: 0 <= i < |v.free| && n <= v.free[i].size
  }

  /** Steps from entry i of a ring of n to entry k. */
  function Dist(n: nat, i: nat, k: nat): (d: nat)
    requires i < n && k < n
    ensures d < n
  {
    if i <= k then k - i else k + n - i
  }

  function Succ(n: nat, i: nat): (k: nat)
    requires i < n
    ensures k < n
  {
    if i + 1 < n then i + 1 else 0
  }

  // ----- the search of malloc, once round from r -----

  /** The entries passed on the way to i are all too small. */
  ghost predicate NoneSeen(f: seq<Block>, i: nat, r: nat, n: nat)
    requires i < |f| && r < |f|
  {
    forall k :: 0 <= k < |f| && Dist(|f|, i, k) > Dist(|f|, i, r) ==> f[k].size < n
  }

  /** Entry x is large enough and still ahead. */
  predicate OneAhead(f: seq<Block>, i: nat, r: nat, x: nat, n: nat)
    requires i < |f| && r < |f|
  {
    x < |f| && n <= f[x].size && Dist(|f|, i, x) <= Dist(|f|, i, r)
  }

  /** a lies at the end of the first block that is large enough, going round from behind freep. */
  ghost predicate FirstFit(f: seq<Block>, freep: nat, n: nat, a: nat) {
    exists i, r :: FitsFirst(f, freep, n, a, i, r)
  }

  ghost predicate FitsFirst(f: seq<Block>, freep: nat, n: nat, a: nat, i: nat, r: nat) {
    i < |f| && r < |f| && f[r].addr == freep && NoneSeen(f, i, r, n) && f[i].addr <= a && a + n == f[i].addr + f[i].size
  }

  /** Of the free blocks below a, freep stands at the last one that does not end there. */
  ghost predicate StandsBefore(f: seq<Block>, freep: nat, a: nat) {
    exists k: nat :: LastBefore(f, k, a) && f[k].addr == freep
  }

  ghost predicate LastBefore(f: seq<Block>, k: nat, a: nat) {
    k < |f| && End(f[k]) < a && forall j :: k < j < |f| ==> a < f[j].addr || End(f[j]) == a
  }

  /** freep stands at the last free block below bp. */
  ghost predicate StandsBelow(f: seq<Block>, freep: nat, bp: nat) {
    exists t: nat :: Place(f, t, bp) && f[t].addr == freep
  }

  lemma FoundFirst(f: seq<Block>, freep: nat, n: nat, i: nat, r: nat)
    requires i < |f| && r < |f| && f[r].addr == freep && n <= f[i].size && NoneSeen(f, i, r, n)
    ensures FirstFit(f, freep, n, CutAddr(f, i, n))
  {
    assert FitsFirst(f, freep, n, CutAddr(f, i, n), i, r);
  }

  /** Since v1 nothing fitted, morecore has been called, and the heap has what sbrk gave. */
  ghost predicate Asked(v1: View, brk1: nat, v: View, brk: nat, n: nat, gap: nat) {
    && !HasFit(v1, n) && Request(n) > 0 && v.alloc == v1.alloc
    && brk == brk1 + gap + Request(n) / 8 && v.owned == v1.owned + UnitsFrom(brk1 + gap, Request(n) / 8)
  }

  lemma AskedIs(v1: View, brk1: nat, v: View, brk: nat, n: nat, gap: nat)
    ensures Request(n) > 0 ==>
              (Asked(v1, brk1, v, brk, n, gap) <==>
               !HasFit(v1, n) && v.alloc == v1.alloc && brk == brk1 + gap + Request(n) / 8
               && v.owned == v1.owned + UnitsFrom(brk1 + gap, Request(n) / 8))
    ensures Asked(v1, brk1, v, brk, n, gap) ==> Request(n) > 0
  {
    hide HasFit, Request, UnitsFrom;
  }

  lemma FitHere(v: View, n: nat, i: nat)
    requires i < |v.free| && n <= v.free[i].size
    ensures HasFit(v, n)
  {
  }

  lemma NoFit(v: View, n: nat)
    requires forall k :: 0 <= k < |v.free| ==> v.free[k].size < n
    ensures !HasFit(v, n)
  {
  }

  ghost function FitAt(v: View, n: nat): (x: nat)
    requires HasFit(v, n)
    ensures x < |v.free| && n <= v.free[x].size
  {
    var x :| 0 <= x < |v.free| && n <= v.free[x].size;
    x
  }

  lemma StartRound(f: seq<Block>, r: nat, n: nat)
    requires r < |f|
    ensures NoneSeen(f, Succ(|f|, r), r, n)
    ensures forall x :: 0 <= x < |f| && n <= f[x].size ==> OneAhead(f, Succ(|f|, r), r, x, n)
  {
  }

  lemma NextRound(f: seq<Block>, i: nat, r: nat, x: nat, n: nat)
    requires i < |f| && r < |f|
    ensures i != r ==> Dist(|f|, Succ(|f|, i), r) < Dist(|f|, i, r)
    ensures i != r && f[i].size < n && NoneSeen(f, i, r, n) ==> NoneSeen(f, Succ(|f|, i), r, n)
    ensures i != r && f[i].size < n && OneAhead(f, i, r, x, n) ==> OneAhead(f, Succ(|f|, i), r, x, n)
  {
    if i != r && f[i].size < n && NoneSeen(f, i, r, n) {
      forall k | 0 <= k < |f| && Dist(|f|, Succ(|f|, i), k) > Dist(|f|, Succ(|f|, i), r) ensures f[k].size < n {
        assert k != i ==> Dist(|f|, i, k) > Dist(|f|, i, r);
      }
    }
  }

  lemma EndRound(f: seq<Block>, r: nat, x: nat, n: nat)
    requires r < |f| && f[r].size < n
    ensures !OneAhead(f, r, r, x, n)
    ensures NoneSeen(f, r, r, n) ==> forall k :: 0 <= k < |f| ==> f[k].size < n
  {
  }

  // ----- the search of free -----

  /** The two ways out of the loop, standing at p with link q. */
  predicate Out(p: nat, q: nat, bp: nat) {
    (bp > p && bp < q) || (p >= q && (bp > p || bp < q))
  }

  /** The loop stops at the last block below bp and nowhere else. */
  lemma OutAtPlace(f: seq<Block>, t: nat, k: nat, bp: nat, base: nat)
    requires Ordered(f, base) && Place(f, t, bp) && k < |f| && base < bp
    ensures Out(f[k].addr, Next(f, k), bp) <==> k == t
  {
    assert k + 1 < |f| ==> End(f[k]) < f[k + 1].addr;
    assert k < t ==> End(f[k]) < f[t].addr;
    assert t < k ==> End(f[t]) < f[k].addr;
    assert 0 < k ==> End(f[0]) < f[k].addr;
    if k + 1 < t {
      assert End(f[k + 1]) < f[t].addr;
    }
    if t + 1 < k {
      assert End(f[t + 1]) < f[k].addr;
    }
  }

  /** Everything free does to the heap, with its place found. */
  lemma FreedOk(base: nat, a: Arena, v: View, t: nat, bp: nat)
    requires HeapOk(base, a, v) && bp in v.alloc && v.free != [] && Place(v.free, t, bp)
    ensures bp in a.hdr && v.free[t].addr in a.hdr && a.hdr[bp].size == v.alloc[bp]
    ensures var p := v.free[t].addr;
            && (bp + a.hdr[bp].size == a.hdr[p].ptr ==> a.hdr[p].ptr in a.hdr)
            && HeapOk(base, Arena(Freed(a.hdr, p, bp), p, a.brk),
                      View(Inserted(v.free, t, bp, v.alloc[bp]), v.alloc - {bp}, v.owned))
  {
    hide FreeAt, AllocAt, Linked, Freed, Inserted, Partition, Allocated;
    AllocatedApart(a.hdr, v.free, v.alloc, base, a.brk, bp);
    InsertedOrdered(v.free, t, bp, v.alloc[bp], base);
    FreedLinked(a.hdr, v.free, t, bp, base);
    var h := Freed(a.hdr, v.free[t].addr, bp);
    AllocatedFree(a.hdr, h, v.free, t, v.alloc, base, a.brk, bp);
    UnitsFreed(a.hdr, v.free, t, v.alloc, v.owned, base, a.brk, bp);
    StillThere(a.hdr, h, v.free, t, bp, v.alloc[bp], base);
  }

  lemma StillThere(hdr: map<nat, Header>, h: map<nat, Header>, f: seq<Block>, t: nat, bp: nat, size: nat, base: nat)
    requires Ordered(f, base) && Place(f, t, bp)
    requires Linked(h, Inserted(f, t, bp, size)) && Ordered(Inserted(f, t, bp, size), base)
    ensures base in h
    ensures exists k :: 0 <= k < |Inserted(f, t, bp, size)| && Inserted(f, t, bp, size)[k].addr == f[t].addr
  {
    hide Inserted;
    var g := Inserted(f, t, bp, size);
    assert LinkedAt(h, g, 0);
    assert g[t].addr == f[t].addr;
  }

  lemma CutBefore(f: seq<Block>, i: nat, n: nat, base: nat)
    requires Ordered(f, base) && 0 < i < |f| && 0 < n <= f[i].size
    ensures StandsBefore(Cut(f, i, n), f[i - 1].addr, CutAddr(f, i, n))
  {
    CutKeeps(f, i, n);
    assert LastBefore(Cut(f, i, n), i - 1, CutAddr(f, i, n));
  }

  class Heap {
    const base: nat
    var arena: Arena
    ghost var view: View

    ghost predicate Valid()
      reads this
    {
      HeapOk(base, arena, view)
    }

    constructor (base: nat, brk: nat)
      requires 0 < base < brk
      ensures Valid() && view == View([], map[], {})
    {
      this.base := base;
      arena := Arena(map[base := Header(0, 0)], 0, brk);
      view := View([], map[], {});
    }

    /** Gives the block back: its units are free, all others are what they were. */
    method Free(ap: nat)
      requires Valid() && 0 < ap && ap - 1 in view.alloc
      modifies this
      ensures Valid() && arena.brk == old(arena.brk) && arena.freep != 0
      ensures view.alloc == old(view.alloc) - {ap - 1} && view.owned == old(view.owned)
      ensures forall u: nat :: FreeAt(view.free, u) <==>
                FreeAt(old(view.free), u) || ap - 1 <= u < ap - 1 + old(view.alloc)[ap - 1]
      ensures StandsBelow(old(view.free), arena.freep, ap - 1)
    {
      hide HeapOk, FreeAt, Freed, Inserted, Place, Ordered;
      var bp: nat := ap - 1;
      ghost var v, f := view, view.free;
      var p;
      ghost var t;
      p, t := FindPlace(bp);
      FreedOk(base, arena, v, t, bp);
      forall u: nat ensures FreeAt(Inserted(f, t, bp, v.alloc[bp]), u) <==> FreeAt(f, u) || bp <= u < bp + v.alloc[bp] {
        InsertedUnits(f, t, bp, v.alloc[bp], base, u);
      }
      view := View(Inserted(f, t, bp, v.alloc[bp]), v.alloc - {bp}, v.owned);
      Join(p, bp);
    }

    /** The loop of free: the block behind which bp belongs. */
    method FindPlace(bp: nat) returns (p: nat, ghost t: nat)
      requires Valid() && bp in view.alloc
      ensures view.free != [] && base < bp && Ordered(view.free, base) && 0 < view.alloc[bp]
      ensures Place(view.free, t, bp) && p == view.free[t].addr && 0 < p < bp
      ensures forall i :: 0 <= i < |view.free| ==> Apart(bp, view.alloc[bp], view.free[i])
    {
      hide FreeAt, AllocAt, Partition, Linked;
      ghost var f := view.free;
      AllocatedApart(arena.hdr, f, view.alloc, base, arena.brk, bp);
      t := PlaceExists(f, |f|, bp);
      p := arena.freep;
      ghost var k :| 0 <= k < |f| && f[k].addr == p;
      LinkedIs(arena.hdr, f, k);
      while !(bp > p && bp < arena.hdr[p].ptr)
        invariant k < |f| && p == f[k].addr && p in arena.hdr && arena.hdr[p] == Header(Next(f, k), f[k].size)
        decreases Dist(|f|, k, t)
      {
        OutAtPlace(f, t, k, bp, base);
        if p >= arena.hdr[p].ptr && (bp > p || bp < arena.hdr[p].ptr) {
          break;
        }
        p := arena.hdr[p].ptr;
        k := if k + 1 < |f| then k + 1 else 0;
        LinkedIs(arena.hdr, f, k);
      }
      OutAtPlace(f, t, k, bp, base);
      assert 0 < t ==> End(f[0]) < f[t].addr;
    }

    /** The assignments at the end of free. */
    method Join(p: nat, bp: nat)
      requires p in arena.hdr && bp in arena.hdr && p < bp
      requires bp + arena.hdr[bp].size == arena.hdr[p].ptr ==> arena.hdr[p].ptr in arena.hdr
      modifies this`arena
      ensures arena == Arena(Freed(old(arena.hdr), p, bp), p, old(arena.brk))
    {
      var q := arena.hdr[p].ptr;
      if bp + arena.hdr[bp].size == q {
        SetHeader(bp, Header(arena.hdr[bp].ptr, arena.hdr[bp].size + arena.hdr[q].size));
        SetHeader(bp, Header(arena.hdr[q].ptr, arena.hdr[bp].size));
      } else {
        SetHeader(bp, Header(q, arena.hdr[bp].size));
      }
      if p + arena.hdr[p].size == bp {
        SetHeader(p, Header(arena.hdr[p].ptr, arena.hdr[p].size + arena.hdr[bp].size));
        SetHeader(p, Header(arena.hdr[bp].ptr, arena.hdr[p].size));
      } else {
        SetHeader(p, Header(bp, arena.hdr[p].size));
      }
      arena := arena.(freep := p);
    }

    method SetHeader(a: nat, h: Header)
      modifies this`arena
      ensures arena == old(arena).(hdr := old(arena.hdr)[a := h])
    {
      arena := arena.(hdr := arena.hdr[a := h]);
    }

    /** Asks sbrk for nu units, at least MIN_UNITS, and frees what it gets. gap is how far the break
        was moved by others since, granted is sbrk's answer; the result is freep, or 0. */
    method Morecore(nunits: nat, gap: nat, granted: bool) returns (p: nat, astray: bool)
      requires Valid() && view.free != [] && 0 < nunits <= 0x2000_0000
      modifies this
      ensures Valid() && view.alloc == old(view.alloc)
      ensures astray <==> Request(nunits) <= 0
      ensures p != 0 <==> granted && Request(nunits) > 0
      ensures p == 0 ==> arena == old(arena) && view == old(view)
      ensures p != 0 ==>
                && p == arena.freep && HasFit(view, nunits) && view.free != []
                && arena.brk == old(arena.brk) + gap + Request(nunits) / 8
                && view.owned == old(view.owned) + UnitsFrom(old(arena.brk) + gap, Request(nunits) / 8)
                && (!HasFit(old(view), nunits) ==> FitsAtBreak(view.free, nunits, arena.brk))
    {
      hide FreeAt, AllocAt, Partition, Linked, Allocated, Ordered;
      var nu := if nunits < MIN_UNITS then MIN_UNITS else nunits;
      astray := Request(nunits) <= 0;
      if astray || !granted {
        return 0, astray;
      }
      ghost var v, a := view, arena;
      var hp := arena.brk + gap;
      Grown(base, arena, view, hp, nu);
      arena := Arena(arena.hdr[hp := Header(0, nu)], arena.freep, hp + nu);
      view := View(view.free, view.alloc[hp := nu], view.owned + UnitsFrom(hp, nu));
      Free(hp + 1);
      p := arena.freep;
      assert view.alloc == v.alloc;
      assert forall u: nat :: hp <= u < hp + nu ==> FreeAt(view.free, u);
      NewFits(base, arena, view, hp, nu);
      if !HasFit(v, nunits) {
        OnlyNew(base, a, v, view, hp, nu, nunits);
      }
    }

    /** A block of nunits units, taken from the first free block that is large enough, going round
        from the one behind freep; morecore is called when there is none, at most once. */
    method Malloc(nbytes: nat, gap: nat, granted: bool) returns (out: Answer)
      requires Valid() && nbytes < WORD
      modifies this
      ensures Valid()
      ensures out.Given? <==> HasFit(old(view), Units(nbytes)) || (granted && Request(Units(nbytes)) > 0)
      ensures out.Astray? <==> !HasFit(old(view), Units(nbytes)) && Request(Units(nbytes)) <= 0
      ensures out.Given? ==>
                && 0 < out.ap && out.ap - 1 !in old(view.alloc)
                && view.alloc == old(view.alloc)[out.ap - 1 := Units(nbytes)]
      ensures out.Given? && HasFit(old(view), Units(nbytes)) ==>
                FirstFit(old(view.free), old(arena.freep), Units(nbytes), out.ap - 1)
      ensures out.Given? && !HasFit(old(view), Units(nbytes)) ==> out.ap - 1 + Units(nbytes) == arena.brk
      ensures out.Given? ==> StandsBefore(view.free, arena.freep, out.ap - 1)
      ensures !out.Given? ==>
                view.alloc == old(view.alloc) && forall u: nat :: FreeAt(view.free, u) <==> FreeAt(old(view.free), u)
      ensures if out.Given? && !HasFit(old(view), Units(nbytes))
              then && arena.brk == old(arena.brk) + gap + Request(Units(nbytes)) / 8
                   && view.owned == old(view.owned) + UnitsFrom(old(arena.brk) + gap, Request(Units(nbytes)) / 8)
              else arena.brk == old(arena.brk) && view.owned == old(view.owned)
    {
      hide FreeAt, AllocAt, Partition, Linked, Allocated, Ordered, Cut, Taken, Inserted, NoneSeen, OneAhead, Dist,
        HeapOk, Request, UnitsFrom, FirstFit, FitsFirst, HasFit, Asked, FitsAtBreak, StandsBefore;
      var nunits := Units(nbytes);
      var prevp := FirstCall(nunits);
      ghost var v1, brk1, freep1 := view, arena.brk, arena.freep;
      ghost var asked := false;
      ghost var r: nat := FreepAt(base, arena, view);
      ghost var h: nat := r;      // the ring entry at prevp
      ghost var x: nat := r;      // an entry that is large enough, once morecore has been called
      LinkedHere(base, arena, view, h);
      var p := arena.hdr[prevp].ptr;
      ghost var i: nat := Succ(|view.free|, h);
      StartRound(view.free, r, nunits);
      while true
        invariant Valid() && view.free != []
        invariant r < |view.free| && view.free[r].addr == arena.freep
        invariant h < |view.free| && view.free[h].addr == prevp
        invariant i == Succ(|view.free|, h) && view.free[i].addr == p
        invariant !asked ==>
                    view == v1 && arena.brk == brk1 && arena.freep == freep1 && NoneSeen(view.free, i, r, nunits)
        invariant asked ==> granted && Asked(v1, brk1, view, arena.brk, nunits, gap)
        invariant asked ==> OneAhead(view.free, i, r, x, nunits) && FitsAtBreak(view.free, nunits, arena.brk)
        decreases if asked then 0 else 1, Dist(|view.free|, i, r)
      {
        LinkedHere(base, arena, view, i);
        if arena.hdr[p].size >= nunits {
          FitHere(view, nunits, i);
          if asked {
            AskedIs(v1, brk1, view, arena.brk, nunits, gap);
            AtBreak(view.free, nunits, arena.brk, i);
          } else {
            FoundFirst(view.free, arena.freep, nunits, i, r);
          }
          var a := Take(prevp, p, nunits, i);
          return Given(a + 1);
        }
        if p == arena.freep {
          SameEntry(base, arena, view, i, r);
          EndRound(view.free, r, x, nunits);
          NoFit(view, nunits);
          var astray;
          p, astray := Morecore(nunits, gap, granted);
          if p == 0 {
            return if astray then Astray else Refused;
          }
          asked := true;
          AskedIs(v1, brk1, view, arena.brk, nunits, gap);
          r := FreepAt(base, arena, view);
          x := FitAt(view, nunits);
          StartRound(view.free, r, nunits);
          i := r;
        }
        prevp := p;
        h := i;
        NextRound(view.free, i, r, x, nunits);
        i := Succ(|view.free|, h);
        LinkedHere(base, arena, view, h);
        p := arena.hdr[prevp].ptr;
      }
    }

    /** What malloc does when it is called first. */
    method FirstCall(nunits: nat) returns (prevp: nat)
      requires Valid() && 0 < nunits
      modifies this
      ensures Valid() && view.free != [] && prevp == arena.freep && arena.brk == old(arena.brk)
      ensures view.alloc == old(view.alloc) && view.owned == old(view.owned)
      ensures HasFit(view, nunits) <==> HasFit(old(view), nunits)
      ensures HasFit(old(view), nunits) ==> view == old(view) && arena == old(arena)
      ensures forall u: nat :: FreeAt(view.free, u) <==> FreeAt(old(view.free), u)
    {
      hide HeapOk;
      prevp := arena.freep;
      FreepZero(base, arena, view);
      if prevp == 0 {
        Initial(base, arena, view);
        arena := Arena(arena.hdr[base := Header(base, 0)], base, arena.brk);
        view := View([Block(base, 0)], view.alloc, view.owned);
        prevp := base;
      }
    }

    /** malloc with its block found: it is unlinked, or its last nunits units are split off. */
    method Take(prevp: nat, p: nat, nunits: nat, ghost i: nat) returns (a: nat)
      requires Valid() && 0 < i < |view.free| && 0 < nunits <= view.free[i].size
      requires view.free[i].addr == p && view.free[i - 1].addr == prevp
      modifies this
      ensures Valid() && arena.brk == old(arena.brk) && view.owned == old(view.owned)
      ensures arena.freep == prevp && a == CutAddr(old(view.free), i, nunits) && StandsBefore(view.free, prevp, a)
      ensures a !in old(view.alloc) && view.alloc == old(view.alloc)[a := nunits]
    {
      hide FreeAt, AllocAt, Partition, Linked, Allocated, Ordered, Cut;
      LinkedHere(base, arena, view, i);
      LinkedHere(base, arena, view, i - 1);
      ghost var h := arena.hdr;
      ghost var junk := 0;
      a := p;
      if arena.hdr[p].size == nunits {
        SetHeader(prevp, Header(arena.hdr[p].ptr, arena.hdr[prevp].size));
      } else {
        SetHeader(p, Header(arena.hdr[p].ptr, arena.hdr[p].size - nunits));
        a := a + arena.hdr[a].size;
        junk := if a in arena.hdr then arena.hdr[a].ptr else 0;
        SetHeader(a, Header(if a in arena.hdr then arena.hdr[a].ptr else 0, nunits));
      }
      arena := arena.(freep := prevp);
      TakenOk(base, Arena(h, prevp, arena.brk), view, i, nunits, junk, old(arena.freep));
      CutBefore(view.free, i, nunits, base);
      view := View(Cut(view.free, i, nunits), view.alloc[a := nunits], view.owned);
    }
  }

  lemma LinkedHere(base: nat, a: Arena, v: View, k: nat)
    requires HeapOk(base, a, v) && k < |v.free|
    ensures v.free[k].addr in a.hdr && a.hdr[v.free[k].addr] == Header(Next(v.free, k), v.free[k].size)
    ensures v.free[0] == Block(base, 0)
  {
    LinkedIs(a.hdr, v.free, k);
  }

  lemma FreepZero(base: nat, a: Arena, v: View)
    requires HeapOk(base, a, v)
    ensures a.freep == 0 <==> v.free == []
  {
    if v.free != [] {
      var k :| 0 <= k < |v.free| && v.free[k].addr == a.freep;
      assert k > 0 ==> End(v.free[0]) < v.free[k].addr;
    }
  }

  lemma FreepAt(base: nat, a: Arena, v: View) returns (k: nat)
    requires HeapOk(base, a, v) && v.free != []
    ensures k < |v.free| && v.free[k].addr == a.freep
  {
    k :| 0 <= k < |v.free| && v.free[k].addr == a.freep;
  }

  /** The first call links base to itself. */
  lemma Initial(base: nat, a: Arena, v: View)
    requires HeapOk(base, a, v) && v.free == []
    ensures HeapOk(base, Arena(a.hdr[base := Header(base, 0)], base, a.brk), View([Block(base, 0)], v.alloc, v.owned))
    ensures forall u: nat :: !FreeAt([Block(base, 0)], u) && !FreeAt(v.free, u)
  {
    var f := [Block(base, 0)];
    assert f[0].addr == base;
  }

  lemma SameEntry(base: nat, a: Arena, v: View, i: nat, r: nat)
    requires HeapOk(base, a, v) && i < |v.free| && r < |v.free| && v.free[i].addr == v.free[r].addr
    ensures i == r
  {
    forall j, k | 0 <= j < k < |v.free| ensures v.free[j].addr < v.free[k].addr {
      assert End(v.free[j]) < v.free[k].addr;
    }
  }

  /** Everything malloc does to the heap when block i fits. */
  lemma TakenOk(base: nat, a: Arena, v: View, i: nat, n: nat, junk: nat, freep: nat)
    requires 0 < i < |v.free| && 0 < n <= v.free[i].size && a.freep == v.free[i - 1].addr
    requires HeapOk(base, a.(freep := freep), v)
    ensures v.free[i - 1].addr in a.hdr && v.free[i].addr in a.hdr && a.hdr[v.free[i].addr].size == v.free[i].size
    ensures var c := CutAddr(v.free, i, n);
            && c !in v.alloc
            && HeapOk(base, a.(hdr := Taken(a.hdr, v.free[i - 1].addr, v.free[i].addr, n, junk)),
                      View(Cut(v.free, i, n), v.alloc[c := n], v.owned))
  {
    hide FreeAt, AllocAt, Linked, Taken, Cut, Partition, Allocated;
    CutOrdered(v.free, i, n, base);
    CutLinked(a.hdr, v.free, i, n, junk, base);
    var h := Taken(a.hdr, v.free[i - 1].addr, v.free[i].addr, n, junk);
    AllocatedCut(a.hdr, h, v.free, i, n, v.alloc, base, a.brk);
    UnitsTaken(v.free, i, n, v.alloc, v.owned, base);
    var g := Cut(v.free, i, n);
    LinkedIs(h, g, 0);
    CutKeeps(v.free, i, n);
  }

  lemma CutKeeps(f: seq<Block>, i: nat, n: nat)
    requires 0 < i < |f| && n <= f[i].size
    ensures i - 1 < |Cut(f, i, n)| && Cut(f, i, n)[i - 1] == f[i - 1]
  {
  }

  function UnitsFrom(p: nat, n: nat): (s: set<nat>)
    ensures forall u: nat :: u in s <==> p <= u < p + n
  {
    if n == 0 then {} else UnitsFrom(p, n - 1) + {p + n - 1}
  }

  /** New memory above everything else is as good as an allocated block. */
  lemma Grown(base: nat, a: Arena, v: View, hp: nat, nu: nat)
    requires HeapOk(base, a, v) && v.free != [] && a.brk <= hp && 0 < nu
    ensures HeapOk(base, Arena(a.hdr[hp := Header(0, nu)], a.freep, hp + nu),
                   View(v.free, v.alloc[hp := nu], v.owned + UnitsFrom(hp, nu)))
    ensures hp !in v.alloc
  {
    hide FreeAt, AllocAt, Allocated, Partition, Linked;
    GrownLinked(base, a, v, hp, nu);
    GrownAllocated(base, a, v, hp, nu);
    GrownUnits(v, a, base, hp, nu);
  }

  lemma GrownLinked(base: nat, a: Arena, v: View, hp: nat, nu: nat)
    requires HeapOk(base, a, v) && v.free != [] && a.brk <= hp && 0 < nu
    ensures Linked(a.hdr[hp := Header(0, nu)], v.free)
  {
    hide Partition;
    var h := a.hdr[hp := Header(0, nu)];
    forall k | 0 <= k < |v.free| ensures LinkedAt(h, v.free, k) {
      assert LinkedAt(a.hdr, v.free, k) && End(v.free[k]) <= a.brk;
      assert k > 0 ==> 0 < v.free[k].size;
    }
  }

  lemma GrownAllocated(base: nat, a: Arena, v: View, hp: nat, nu: nat)
    requires HeapOk(base, a, v) && v.free != [] && a.brk <= hp && 0 < nu
    ensures Allocated(a.hdr[hp := Header(0, nu)], v.free, v.alloc[hp := nu], base, hp + nu) && hp !in v.alloc
  {
    hide Partition, Linked;
  }

  lemma GrownUnits(v: View, a: Arena, base: nat, hp: nat, nu: nat)
    requires HeapOk(base, a, v) && v.free != [] && hp !in v.alloc
    ensures Partition(v.free, v.alloc[hp := nu], v.owned + UnitsFrom(hp, nu))
  {
    hide FreeAt, AllocAt, Linked, Allocated, Ordered;
    forall u: nat ensures AllocAt(v.alloc[hp := nu], u) <==> AllocAt(v.alloc, u) || hp <= u < hp + nu {
      AllocAtAdded(v.alloc, hp, nu, u);
    }
  }

  /** Whatever is large enough ends at the break. */
  ghost predicate FitsAtBreak(f: seq<Block>, n: nat, brk: nat) {
    forall k :: 0 <= k < |f| && n <= f[k].size ==> End(f[k]) == brk
  }

  lemma AtBreak(f: seq<Block>, n: nat, brk: nat, i: nat)
    requires FitsAtBreak(f, n, brk) && i < |f| && n <= f[i].size
    ensures CutAddr(f, i, n) + n == brk
  {
  }

  /** When nothing was large enough, only the block with the new memory is. */
  lemma OnlyNew(base: nat, a: Arena, v: View, w: View, hp: nat, nu: nat, n: nat)
    requires HeapOk(base, a, v) && v.free != [] && a.brk <= hp && !HasFit(v, n) && 0 < n
    requires Ordered(w.free, base) && forall u: nat :: FreeAt(w.free, u) <==> FreeAt(v.free, u) || hp <= u < hp + nu
    ensures FitsAtBreak(w.free, n, hp + nu)
  {
    hide FreeAt, Partition, Linked, Ordered, Allocated;
    forall k | 0 <= k < |w.free| && n <= w.free[k].size ensures End(w.free[k]) == hp + nu {
      OnlyNewAt(base, a, v, w, hp, nu, n, k);
    }
  }

  lemma OnlyNewAt(base: nat, a: Arena, v: View, w: View, hp: nat, nu: nat, n: nat, k: nat)
    requires HeapOk(base, a, v) && v.free != [] && a.brk <= hp && !HasFit(v, n) && 0 < n
    requires Ordered(w.free, base) && forall u: nat :: FreeAt(w.free, u) <==> FreeAt(v.free, u) || hp <= u < hp + nu
    requires k < |w.free| && n <= w.free[k].size
    ensures End(w.free[k]) == hp + nu
  {
    hide Partition, Linked;
    var b := w.free[k];
    assert FreeAt(w.free, End(b) - 1);
    NothingBehind(w.free, k, base);
    if End(b) <= hp {
      assert FreeAt(w.free, b.addr);
      InOne(v, b.addr, n, base);
    }
  }

  /** A stretch of free units lies in one block. */
  lemma InOne(v: View, p: nat, size: nat, base: nat)
    requires Ordered(v.free, base) && 0 < size && forall u: nat :: p <= u < p + size ==> FreeAt(v.free, u)
    ensures HasFit(v, size)
  {
    assert FreeAt(v.free, p);
    var i :| 0 <= i < |v.free| && v.free[i].addr <= p < End(v.free[i]);
    NothingBehind(v.free, i, base);
    assert End(v.free[i]) >= p + size;
  }

  /** One block holds all of a free stretch: no two free blocks touch. */
  lemma NewFits(base: nat, a: Arena, v: View, hp: nat, nu: nat)
    requires HeapOk(base, a, v) && v.free != [] && 0 < nu
    requires forall u: nat :: hp <= u < hp + nu ==> FreeAt(v.free, u)
    ensures HasFit(v, nu)
  {
    InOne(v, hp, nu, base);
  }

  lemma NothingBehind(f: seq<Block>, i: nat, base: nat)
    requires Ordered(f, base) && i < |f|
    ensures !FreeAt(f, End(f[i]))
  {
    forall k | 0 <= k < |f| ensures !(f[k].addr <= End(f[i]) < End(f[k])) {
      assert i < k ==> End(f[i]) < f[k].addr;
      assert k < i ==> End(f[k]) < f[i].addr;
    }
  }

  lemma LinkedIs(hdr: map<nat, Header>, f: seq<Block>, k: nat)
    requires Linked(hdr, f) && k < |f|
    ensures f[k].addr in hdr && hdr[f[k].addr] == Header(Next(f, k), f[k].size)
  {
    assert LinkedAt(hdr, f, k);
  }
}
