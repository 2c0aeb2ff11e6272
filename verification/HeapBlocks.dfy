/** The heap of umalloc.c in units of one header: free blocks in address order, allocated blocks,
    and what putting a block into the list or taking one out does to both. */
module HeapBlocks {
  datatype Header = Header(ptr: nat, size: nat)

  /** size counts the header. */
  datatype Block = Block(addr: nat, size: nat)

  function End(b: Block): nat {
    b.addr + b.size
  }

  // ----- the free list -----

  /** Address-ordered; no two blocks touch; only base is empty. */
  ghost predicate Ordered(f: seq<Block>, base: nat) {
    && 0 < |f| && f[0] == Block(base, 0) && 0 < base
    && (forall i, j :: 0 <= i < j < |f| ==> End(f[i]) < f[j].addr)
    && (forall i :: 1 <= i < |f| ==> 0 < f[i].size)
  }

  function Next(f: seq<Block>, i: nat): nat
    requires i < |f|
  {
    if i + 1 < |f| then f[i + 1].addr else f[0].addr
  }

  /** The headers of the blocks link them into one cycle, with one step down: from last to first. */
  ghost predicate Linked(hdr: map<nat, Header>, f: seq<Block>) {
    forall i :: 0 <= i < |f| ==> LinkedAt(hdr, f, i)
  }

  ghost predicate LinkedAt(hdr: map<nat, Header>, f: seq<Block>, i: nat)
    requires i < |f|
  {
    f[i].addr in hdr && hdr[f[i].addr] == Header(Next(f, i), f[i].size)
  }

  // ----- allocated blocks and units -----

  predicate Apart(a: nat, size: nat, b: Block) {
    a + size <= b.addr || End(b) <= a
  }

  ghost predicate Allocated(hdr: map<nat, Header>, f: seq<Block>, alloc: map<nat, nat>, base: nat, brk: nat) {
    && (forall a :: a in alloc ==>
          base < a && 0 < alloc[a] && a + alloc[a] <= brk && a in hdr && hdr[a].size == alloc[a])
    && (forall a, b :: a in alloc && b in alloc && a < b ==> a + alloc[a] <= b)
    && (forall a, i :: a in alloc && 0 <= i < |f| ==> Apart(a, alloc[a], f[i]))
    && (forall i :: 0 <= i < |f| ==> End(f[i]) <= brk)
  }

  ghost predicate FreeAt(f: seq<Block>, u: nat) {
    exists i :: 0 <= i < |f| && f[i].addr <= u < End(f[i])
  }

  ghost predicate AllocAt(alloc: map<nat, nat>, u: nat) {
    exists a :: a in alloc && a <= u < a + alloc[a]
  }

  /** The units got from sbrk are those of free blocks and those of allocated blocks. */
  ghost predicate Partition(f: seq<Block>, alloc: map<nat, nat>, owned: set<nat>) {
    forall u: nat :: u in owned <==> FreeAt(f, u) || AllocAt(alloc, u)
  }

  /** No unit is both. */
  lemma FreeOrAllocated(hdr: map<nat, Header>, f: seq<Block>, alloc: map<nat, nat>, base: nat, brk: nat, u: nat)
    requires Allocated(hdr, f, alloc, base, brk)
    ensures !(FreeAt(f, u) && AllocAt(alloc, u))
  {
    forall i, a | 0 <= i < |f| && a in alloc && a <= u < a + alloc[a]
      ensures !(f[i].addr <= u < End(f[i]))
    {
      assert Apart(a, alloc[a], f[i]);
    }
  }

  // ----- free: the place in the list -----

  /** Block t is the last one below bp. */
  ghost predicate Place(f: seq<Block>, t: nat, bp: nat) {
    t < |f| && f[t].addr < bp && (t + 1 < |f| ==> bp < f[t + 1].addr)
  }

  lemma {:induction false} PlaceExists(f: seq<Block>, n: nat, bp: nat) returns (t: nat)
    requires 0 < n <= |f| && f[0].addr < bp && (n < |f| ==> bp < f[n].addr)
    requires forall i :: 0 <= i < |f| ==> f[i].addr != bp
    ensures Place(f, t, bp)
  {
    if f[n - 1].addr < bp {
      t := n - 1;
    } else {
      t := PlaceExists(f, n - 1, bp);
    }
  }

  /** bp joins the block below it; bp joins the block above it. */
  predicate Low(f: seq<Block>, t: nat, bp: nat)
    requires t < |f|
  {
    End(f[t]) == bp
  }

  predicate High(f: seq<Block>, t: nat, bp: nat, size: nat)
    requires t < |f|
  {
    t + 1 < |f| && bp + size == f[t + 1].addr
  }

  /** Where the block with bp ends up, and how far those above it move. */
  function At(f: seq<Block>, t: nat, bp: nat): (m: nat)
    requires t < |f|
  {
    if Low(f, t, bp) then t else t + 1
  }

  function Shift(f: seq<Block>, t: nat, bp: nat, size: nat): (d: int)
    requires t < |f|
  {
    (if Low(f, t, bp) then 0 else 1) - (if High(f, t, bp, size) then 1 else 0)
  }

  /** The block with bp in it, joined to its neighbours. */
  function Joined(f: seq<Block>, t: nat, bp: nat, size: nat): (b: Block)
    requires t < |f|
  {
    Block(if Low(f, t, bp) then f[t].addr else bp,
          (if Low(f, t, bp) then f[t].size else 0) + size + (if High(f, t, bp, size) then f[t + 1].size else 0))
  }

  /** The list after bp has been put behind block t. */
  function Inserted(f: seq<Block>, t: nat, bp: nat, size: nat): (g: seq<Block>)
    requires t < |f|
    ensures var m := At(f, t, bp); var d := Shift(f, t, bp, size);
            && |g| == |f| + d && m < |g| && g[m] == Joined(f, t, bp, size)
            && (forall i {:trigger g[i]} :: 0 <= i < m ==> g[i] == f[i])
            && (forall i {:trigger g[i]} :: m < i < |g| ==> g[i] == f[i - d])
  {
    f[..At(f, t, bp)] + [Joined(f, t, bp, size)] + f[At(f, t, bp) + 1 - Shift(f, t, bp, size)..]
  }

  lemma InsertedOrdered(f: seq<Block>, t: nat, bp: nat, size: nat, base: nat)
    requires Ordered(f, base) && Place(f, t, bp) && 0 < size
    requires forall i :: 0 <= i < |f| ==> Apart(bp, size, f[i])
    ensures Ordered(Inserted(f, t, bp, size), base)
  {
    hide Inserted;
    assert Apart(bp, size, f[t]);
    assert t + 1 < |f| ==> Apart(bp, size, f[t + 1]);
    var b := Joined(f, t, bp, size);
    var m := At(f, t, bp);
    var d := Shift(f, t, bp, size);
    forall i | 0 <= i < m ensures End(f[i]) < b.addr {
      assert i < t || i == t;
    }
    forall k | m + 1 - d <= k < |f| ensures End(b) < f[k].addr {
      assert k > t + 1 || (k == t + 1 && !High(f, t, bp, size));
    }
    InsertedBetween(f, Inserted(f, t, bp, size), m, d, b, base);
  }

  /** A block that fits between those below and those above it. */
  lemma InsertedBetween(f: seq<Block>, g: seq<Block>, m: nat, d: int, b: Block, base: nat)
    requires Ordered(f, base) && m < |g| && |g| == |f| + d && d <= 1 && m + 1 - d <= |f| && m <= |f| && 0 < b.size
    requires forall i {:trigger g[i]} :: 0 <= i < m ==> g[i] == f[i]
    requires g[m] == b
    requires forall i {:trigger g[i]} :: m < i < |g| ==> g[i] == f[i - d]
    requires forall i :: 0 <= i < m ==> End(f[i]) < b.addr
    requires forall k :: m + 1 - d <= k < |f| ==> End(b) < f[k].addr
    requires g[0] == f[0]
    ensures Ordered(g, base)
  {
    forall i, j | 0 <= i < j < |g| ensures End(g[i]) < g[j].addr {
      if j < m || i > m {
        assert (i < m ==> g[i] == f[i]) && (j < m ==> g[j] == f[j]);
      } else if i < m < j {
        assert End(f[i]) < b.addr <= End(b) < f[j - d].addr;
      }
    }
  }

  lemma InsertedUnits(f: seq<Block>, t: nat, bp: nat, size: nat, base: nat, u: nat)
    requires Ordered(f, base) && Place(f, t, bp) && 0 < size
    requires forall i :: 0 <= i < |f| ==> Apart(bp, size, f[i])
    ensures FreeAt(Inserted(f, t, bp, size), u) <==> FreeAt(f, u) || bp <= u < bp + size
  {
    hide Inserted;
    var g := Inserted(f, t, bp, size);
    var m := At(f, t, bp);
    assert g[m].addr <= bp && bp + size <= End(g[m]);
    assert t + 1 < |f| ==> Apart(bp, size, f[t + 1]);
    assert Apart(bp, size, f[t]);
    if FreeAt(f, u) {
      StaysFree(f, t, bp, size, u);
    }
    if FreeAt(g, u) && !(bp <= u < bp + size) {
      WasFree(f, t, bp, size, u);
    }
  }

  lemma WasFree(f: seq<Block>, t: nat, bp: nat, size: nat, u: nat)
    requires t < |f| && FreeAt(Inserted(f, t, bp, size), u) && !(bp <= u < bp + size)
    ensures FreeAt(f, u)
  {
    hide Inserted;
    var g := Inserted(f, t, bp, size);
    var m := At(f, t, bp);
    var d := Shift(f, t, bp, size);
    var i :| 0 <= i < |g| && g[i].addr <= u < End(g[i]);
    var k := if i < m then i else if i > m then i - d else if u < bp then t else t + 1;
    assert f[k].addr <= u < End(f[k]);
  }

  lemma StaysFree(f: seq<Block>, t: nat, bp: nat, size: nat, u: nat)
    requires Place(f, t, bp) && FreeAt(f, u)
    ensures FreeAt(Inserted(f, t, bp, size), u)
  {
    hide Inserted;
    var g := Inserted(f, t, bp, size);
    var m := At(f, t, bp);
    var d := Shift(f, t, bp, size);
    var i :| 0 <= i < |f| && f[i].addr <= u < End(f[i]);
    var k := if i < m && i < t then i else if i == t && !Low(f, t, bp) then t else if i + d > m then i + d else m;
    assert g[k].addr <= u < End(g[k]);
  }

  // ----- free: the links -----

  /** The assignments of free, with p found. */
  function Freed(hdr: map<nat, Header>, p: nat, bp: nat): (h: map<nat, Header>)
    requires p in hdr && bp in hdr && (bp + hdr[bp].size == hdr[p].ptr ==> hdr[p].ptr in hdr)
  {
    var q := hdr[p].ptr;
    var b := if bp + hdr[bp].size == q then Header(hdr[q].ptr, hdr[bp].size + hdr[q].size) else Header(q, hdr[bp].size);
    var h := hdr[bp := b];
    h[p := if p + h[p].size == bp then Header(b.ptr, h[p].size + b.size) else Header(bp, h[p].size)]
  }

  lemma NextInserted(f: seq<Block>, t: nat, bp: nat, size: nat, i: nat)
    requires t < |f| && 0 < size && i < |Inserted(f, t, bp, size)| && (Low(f, t, bp) && t == 0 ==> f[0].addr < bp)
    ensures var g := Inserted(f, t, bp, size); var m := At(f, t, bp); var d := Shift(f, t, bp, size);
            && (i + 1 < m ==> Next(g, i) == Next(f, i))
            && (i + 1 == m ==> Next(g, i) == g[m].addr)
            && (i == m ==> Next(g, i) == if High(f, t, bp, size) then Next(f, t + 1) else Next(f, t))
            && (i > m ==> Next(g, i) == Next(f, i - d))
  {
    hide Inserted;
    var g := Inserted(f, t, bp, size);
    assert g[0].addr == f[0].addr;
  }

  lemma FreedLinked(hdr: map<nat, Header>, f: seq<Block>, t: nat, bp: nat, base: nat)
    requires Ordered(f, base) && Linked(hdr, f) && Place(f, t, bp) && bp in hdr && 0 < hdr[bp].size
    requires forall i :: 0 <= i < |f| ==> Apart(bp, hdr[bp].size, f[i]) && f[i].addr != bp
    ensures f[t].addr in hdr && (bp + hdr[bp].size == hdr[f[t].addr].ptr ==> hdr[f[t].addr].ptr in hdr)
    ensures Linked(Freed(hdr, f[t].addr, bp), Inserted(f, t, bp, hdr[bp].size))
    ensures forall a :: a in hdr && a != bp && a != f[t].addr ==>
              a in Freed(hdr, f[t].addr, bp) && Freed(hdr, f[t].addr, bp)[a] == hdr[a]
  {
    FreedIs(hdr, f, t, bp, base);
    hide Freed, Inserted;
    forall i | 0 <= i < |Inserted(f, t, bp, hdr[bp].size)|
      ensures LinkedAt(Freed(hdr, f[t].addr, bp), Inserted(f, t, bp, hdr[bp].size), i)
    {
      FreedLinkedAt(hdr, Freed(hdr, f[t].addr, bp), f, t, bp, hdr[bp].size, base, i);
    }
  }

  /** What the block with bp in it links to. */
  function After(f: seq<Block>, t: nat, bp: nat, size: nat): nat
    requires t < |f|
  {
    if High(f, t, bp, size) then Next(f, t + 1) else Next(f, t)
  }

  lemma FreedIs(hdr: map<nat, Header>, f: seq<Block>, t: nat, bp: nat, base: nat)
    requires Ordered(f, base) && Linked(hdr, f) && Place(f, t, bp) && bp in hdr && 0 < hdr[bp].size
    ensures f[t].addr in hdr && (bp + hdr[bp].size == hdr[f[t].addr].ptr ==> hdr[f[t].addr].ptr in hdr)
    ensures var h, p, b := Freed(hdr, f[t].addr, bp), f[t].addr, Joined(f, t, bp, hdr[bp].size);
            && p in h && bp in h && (forall a :: a in hdr && a != bp && a != p ==> a in h && h[a] == hdr[a])
            && (Low(f, t, bp) ==> h[p] == Header(After(f, t, bp, hdr[bp].size), b.size))
            && (!Low(f, t, bp) ==>
                  h[p] == Header(bp, f[t].size) && h[bp] == Header(After(f, t, bp, hdr[bp].size), b.size))
  {
    assert LinkedAt(hdr, f, t);
    assert bp + hdr[bp].size == Next(f, t) <==> High(f, t, bp, hdr[bp].size);
    if t + 1 < |f| {
      assert LinkedAt(hdr, f, t + 1);
    }
  }

  lemma FreedLinkedAt(hdr: map<nat, Header>, h: map<nat, Header>, f: seq<Block>, t: nat, bp: nat, size: nat,
                      base: nat, i: nat)
    requires Ordered(f, base) && Linked(hdr, f) && Place(f, t, bp) && 0 < size && i < |Inserted(f, t, bp, size)|
    requires forall k :: 0 <= k < |f| ==> f[k].addr != bp
    requires var p, b := f[t].addr, Joined(f, t, bp, size);
             && p in h && bp in h && (forall a :: a in hdr && a != bp && a != p ==> a in h && h[a] == hdr[a])
             && (Low(f, t, bp) ==> h[p] == Header(After(f, t, bp, size), b.size))
             && (!Low(f, t, bp) ==> h[p] == Header(bp, f[t].size) && h[bp] == Header(After(f, t, bp, size), b.size))
    ensures LinkedAt(h, Inserted(f, t, bp, size), i)
  {
    hide Inserted;
    var g := Inserted(f, t, bp, size);
    var m := At(f, t, bp);
    NextInserted(f, t, bp, size, i);
    if i != m {
      var k := if i < m then i else i - Shift(f, t, bp, size);
      assert g[i] == f[k] && LinkedAt(hdr, f, k);
    }
  }

  // ----- malloc: taking n units off the end of block j -----

  function Cut(f: seq<Block>, j: nat, n: nat): (g: seq<Block>)
    requires j < |f| && n <= f[j].size
    ensures f[j].size == n ==>
              |g| == |f| - 1 && (forall i {:trigger g[i]} :: 0 <= i < |g| ==> g[i] == if i < j then f[i] else f[i + 1])
    ensures f[j].size > n ==>
              && |g| == |f| && g[j] == Block(f[j].addr, f[j].size - n)
              && (forall i {:trigger g[i]} :: 0 <= i < |g| && i != j ==> g[i] == f[i])
  {
    if f[j].size == n then f[..j] + f[j + 1..] else f[j := Block(f[j].addr, f[j].size - n)]
  }

  function CutAddr(f: seq<Block>, j: nat, n: nat): (a: nat)
    requires j < |f| && n <= f[j].size
  {
    End(f[j]) - n
  }

  /** The assignments of malloc, with p and prevp found; the new header's ptr keeps what was there. */
  function Taken(hdr: map<nat, Header>, prevp: nat, p: nat, n: nat, junk: nat): (h: map<nat, Header>)
    requires prevp in hdr && p in hdr && n <= hdr[p].size
  {
    if hdr[p].size == n then hdr[prevp := Header(hdr[p].ptr, hdr[prevp].size)]
    else hdr[p := Header(hdr[p].ptr, hdr[p].size - n)][p + (hdr[p].size - n) := Header(junk, n)]
  }

  lemma CutOrdered(f: seq<Block>, j: nat, n: nat, base: nat)
    requires Ordered(f, base) && 0 < j < |f| && n <= f[j].size
    ensures Ordered(Cut(f, j, n), base)
  {
    hide Cut;
  }

  lemma CutUnits(f: seq<Block>, j: nat, n: nat, base: nat, u: nat)
    requires Ordered(f, base) && 0 < j < |f| && 0 < n <= f[j].size
    ensures FreeAt(Cut(f, j, n), u) <==> FreeAt(f, u) && !(CutAddr(f, j, n) <= u < CutAddr(f, j, n) + n)
  {
    if FreeAt(Cut(f, j, n), u) {
      CutWasFree(f, j, n, base, u);
    }
    if FreeAt(f, u) && !(CutAddr(f, j, n) <= u < CutAddr(f, j, n) + n) {
      CutStaysFree(f, j, n, u);
    }
  }

  lemma CutWasFree(f: seq<Block>, j: nat, n: nat, base: nat, u: nat)
    requires Ordered(f, base) && 0 < j < |f| && 0 < n <= f[j].size && FreeAt(Cut(f, j, n), u)
    ensures FreeAt(f, u) && !(CutAddr(f, j, n) <= u < CutAddr(f, j, n) + n)
  {
    hide Cut;
    var g := Cut(f, j, n);
    var i :| 0 <= i < |g| && g[i].addr <= u < End(g[i]);
    var k := if f[j].size == n && i >= j then i + 1 else i;
    assert f[k].addr <= u < End(f[k]);
    assert k < j ==> End(f[k]) < f[j].addr;
    assert k > j ==> End(f[j]) < f[k].addr;
  }

  lemma CutStaysFree(f: seq<Block>, j: nat, n: nat, u: nat)
    requires 0 < j < |f| && 0 < n <= f[j].size && FreeAt(f, u) && !(CutAddr(f, j, n) <= u < CutAddr(f, j, n) + n)
    ensures FreeAt(Cut(f, j, n), u)
  {
    hide Cut;
    var g := Cut(f, j, n);
    var i :| 0 <= i < |f| && f[i].addr <= u < End(f[i]);
    var k := if f[j].size == n && i > j then i - 1 else i;
    assert g[k].addr <= u < End(g[k]);
  }

  lemma CutLinked(hdr: map<nat, Header>, f: seq<Block>, j: nat, n: nat, junk: nat, base: nat)
    requires Ordered(f, base) && Linked(hdr, f) && 0 < j < |f| && 0 < n <= f[j].size
    ensures f[j - 1].addr in hdr && f[j].addr in hdr && hdr[f[j].addr].size == f[j].size
    ensures var h := Taken(hdr, f[j - 1].addr, f[j].addr, n, junk);
            && Linked(h, Cut(f, j, n)) && CutAddr(f, j, n) in h && h[CutAddr(f, j, n)].size == n
            && (forall a :: a in hdr && a != f[j].addr && a != f[j - 1].addr && a != CutAddr(f, j, n) ==>
                  a in h && h[a] == hdr[a])
  {
    assert LinkedAt(hdr, f, j) && LinkedAt(hdr, f, j - 1);
    assert f[j - 1].addr < f[j].addr;
    var h := Taken(hdr, f[j - 1].addr, f[j].addr, n, junk);
    forall i | 0 <= i < |Cut(f, j, n)| ensures LinkedAt(h, Cut(f, j, n), i) {
      CutLinkedAt(hdr, h, f, j, n, base, i);
    }
  }

  lemma CutLinkedAt(hdr: map<nat, Header>, h: map<nat, Header>, f: seq<Block>, j: nat, n: nat, base: nat, i: nat)
    requires Ordered(f, base) && Linked(hdr, f) && 0 < j < |f| && 0 < n <= f[j].size && i < |Cut(f, j, n)|
    requires f[j].size == n ==> f[j - 1].addr in h && h[f[j - 1].addr] == Header(Next(f, j), f[j - 1].size)
    requires f[j].size > n ==> f[j].addr in h && h[f[j].addr] == Header(Next(f, j), f[j].size - n)
    requires f[j - 1].addr in hdr && (f[j].size > n ==> f[j - 1].addr in h && h[f[j - 1].addr] == hdr[f[j - 1].addr])
    requires forall a :: a in hdr && a != f[j].addr && a != f[j - 1].addr && a != CutAddr(f, j, n) ==>
               a in h && h[a] == hdr[a]
    ensures LinkedAt(h, Cut(f, j, n), i)
  {
    hide Cut;
    var g := Cut(f, j, n);
    var k := if f[j].size == n && i >= j then i + 1 else i;
    assert LinkedAt(hdr, f, k);
    assert k < j ==> End(f[k]) < f[j].addr;
    assert k > j ==> End(f[j]) < f[k].addr;
    assert k < j - 1 ==> f[k].addr < f[j - 1].addr;
    assert g[0].addr == f[0].addr;
  }

  // ----- the allocated blocks -----

  lemma AllocatedApart(hdr: map<nat, Header>, f: seq<Block>, alloc: map<nat, nat>, base: nat, brk: nat, bp: nat)
    requires Allocated(hdr, f, alloc, base, brk) && bp in alloc && Ordered(f, base)
    ensures bp in hdr && hdr[bp].size == alloc[bp] && 0 < alloc[bp] && f[0].addr < bp
    ensures forall i :: 0 <= i < |f| ==> Apart(bp, alloc[bp], f[i]) && f[i].addr != bp
  {
    forall i | 0 <= i < |f| ensures f[i].addr != bp {
      assert Apart(bp, alloc[bp], f[i]);
    }
  }

  lemma AllocatedFree(hdr: map<nat, Header>, h: map<nat, Header>, f: seq<Block>, t: nat, alloc: map<nat, nat>,
                      base: nat, brk: nat, bp: nat)
    requires Allocated(hdr, f, alloc, base, brk) && bp in alloc && Ordered(f, base) && Place(f, t, bp)
    requires forall a :: a in hdr && a != bp && a != f[t].addr ==> a in h && h[a] == hdr[a]
    ensures Allocated(h, Inserted(f, t, bp, alloc[bp]), alloc - {bp}, base, brk)
  {
    hide Inserted;
    var g := Inserted(f, t, bp, alloc[bp]);
    var m := At(f, t, bp);
    var d := Shift(f, t, bp, alloc[bp]);
    forall a | a in alloc - {bp} ensures a in h && h[a] == hdr[a] {
      assert Apart(a, alloc[a], f[t]);
    }
    forall a, i | a in alloc - {bp} && 0 <= i < |g| ensures Apart(a, alloc[a], g[i]) {
      ApartFromFreed(hdr, f, t, alloc, base, brk, bp, a, i);
    }
    forall i | 0 <= i < |g| ensures End(g[i]) <= brk {
      if i > m {
        assert g[i] == f[i - d];
      }
    }
  }

  lemma ApartFromFreed(hdr: map<nat, Header>, f: seq<Block>, t: nat, alloc: map<nat, nat>, base: nat, brk: nat,
                       bp: nat, a: nat, i: nat)
    requires Allocated(hdr, f, alloc, base, brk) && bp in alloc && Ordered(f, base) && Place(f, t, bp)
    requires a in alloc && a != bp && i < |Inserted(f, t, bp, alloc[bp])|
    ensures Apart(a, alloc[a], Inserted(f, t, bp, alloc[bp])[i])
  {
    hide Inserted;
    var m := At(f, t, bp);
    assert Apart(a, alloc[a], f[t]);
    assert t + 1 < |f| ==> Apart(a, alloc[a], f[t + 1]);
    assert if a < bp then a + alloc[a] <= bp else bp + alloc[bp] <= a;
    if i != m {
      var k := if i < m then i else i - Shift(f, t, bp, alloc[bp]);
      assert Apart(a, alloc[a], f[k]);
    }
  }

  lemma AllocatedCut(hdr: map<nat, Header>, h: map<nat, Header>, f: seq<Block>, j: nat, n: nat, alloc: map<nat, nat>,
                     base: nat, brk: nat)
    requires Allocated(hdr, f, alloc, base, brk) && Ordered(f, base) && 0 < j < |f| && 0 < n <= f[j].size
    requires CutAddr(f, j, n) in h && h[CutAddr(f, j, n)].size == n
    requires forall a :: a in hdr && a != f[j].addr && a != f[j - 1].addr && a != CutAddr(f, j, n) ==>
               a in h && h[a] == hdr[a]
    ensures CutAddr(f, j, n) !in alloc
    ensures Allocated(h, Cut(f, j, n), alloc[CutAddr(f, j, n) := n], base, brk)
  {
    CutApart(hdr, f, j, n, alloc, base, brk);
    hide Cut, Apart, Ordered, CutAddr;
  }

  lemma CutApart(hdr: map<nat, Header>, f: seq<Block>, j: nat, n: nat, alloc: map<nat, nat>, base: nat, brk: nat)
    requires Allocated(hdr, f, alloc, base, brk) && Ordered(f, base) && 0 < j < |f| && 0 < n <= f[j].size
    ensures var g, c := Cut(f, j, n), CutAddr(f, j, n);
            && base < c && c + n <= brk
            && (forall a :: a in alloc ==>
                  && a != c && a != f[j].addr && a != f[j - 1].addr
                  && (a < c ==> a + alloc[a] <= c) && (c < a ==> c + n <= a))
            && (forall a, i :: a in alloc && 0 <= i < |g| ==> Apart(a, alloc[a], g[i]))
            && (forall i :: 0 <= i < |g| ==> Apart(c, n, g[i]) && End(g[i]) <= brk)
  {
    var g := Cut(f, j, n);
    var c := CutAddr(f, j, n);
    hide Cut;
    forall a | a in alloc
      ensures a != c && a != f[j].addr && a != f[j - 1].addr
      ensures (a < c ==> a + alloc[a] <= c) && (c < a ==> c + n <= a)
    {
      assert Apart(a, alloc[a], f[j]) && Apart(a, alloc[a], f[j - 1]);
    }
    forall a, i | a in alloc && 0 <= i < |g| ensures Apart(a, alloc[a], g[i]) {
      assert Apart(a, alloc[a], f[if f[j].size == n && i >= j then i + 1 else i]);
    }
    forall i | 0 <= i < |g| ensures Apart(c, n, g[i]) && End(g[i]) <= brk {
      var k := if f[j].size == n && i >= j then i + 1 else i;
      assert k < j ==> End(f[k]) < f[j].addr;
      assert k > j ==> End(f[j]) < f[k].addr;
      assert End(f[k]) <= brk;
    }
  }

  lemma UnitsFreed(hdr: map<nat, Header>, f: seq<Block>, t: nat, alloc: map<nat, nat>, owned: set<nat>, base: nat,
                   brk: nat, bp: nat)
    requires Allocated(hdr, f, alloc, base, brk) && bp in alloc && Ordered(f, base) && Place(f, t, bp)
    requires Partition(f, alloc, owned)
    ensures Partition(Inserted(f, t, bp, alloc[bp]), alloc - {bp}, owned)
  {
    hide Inserted, FreeAt;
    AllocatedApart(hdr, f, alloc, base, brk, bp);
    forall u: nat
      ensures u in owned <==> FreeAt(Inserted(f, t, bp, alloc[bp]), u) || AllocAt(alloc - {bp}, u)
    {
      InsertedUnits(f, t, bp, alloc[bp], base, u);
      if AllocAt(alloc, u) && !(bp <= u < bp + alloc[bp]) {
        var a :| a in alloc && a <= u < a + alloc[a];
        assert a in alloc - {bp};
      }
    }
  }

  lemma UnitsTaken(f: seq<Block>, j: nat, n: nat, alloc: map<nat, nat>, owned: set<nat>, base: nat)
    requires Ordered(f, base) && 0 < j < |f| && 0 < n <= f[j].size && CutAddr(f, j, n) !in alloc
    requires Partition(f, alloc, owned)
    ensures Partition(Cut(f, j, n), alloc[CutAddr(f, j, n) := n], owned)
  {
    var c := CutAddr(f, j, n);
    hide Cut;
    forall u: nat
      ensures u in owned <==> FreeAt(Cut(f, j, n), u) || AllocAt(alloc[c := n], u)
    {
      CutUnits(f, j, n, base, u);
      assert c <= u < c + n ==> f[j].addr <= u < End(f[j]);
      AllocAtAdded(alloc, c, n, u);
    }
  }

  lemma AllocAtAdded(alloc: map<nat, nat>, c: nat, n: nat, u: nat)
    requires c !in alloc
    ensures AllocAt(alloc[c := n], u) <==> AllocAt(alloc, u) || c <= u < c + n
  {
    if AllocAt(alloc, u) {
      var a :| a in alloc && a <= u < a + alloc[a];
      assert a in alloc[c := n] && a <= u < a + alloc[c := n][a];
    }
    if c <= u < c + n {
      assert c in alloc[c := n] && alloc[c := n][c] == n;
    }
  }
}
