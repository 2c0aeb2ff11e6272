/** The order of the buffer list after any run of releases: most recently released first. */
module Recency {
  import opened Basics

  /** The list after its element at k is moved to just behind the head. */
  ghost function ToFront<T>(ring: seq<T>, k: nat): (r: seq<T>)
    requires 0 < k < |ring|
    ensures |r| == |ring|
    ensures forall i :: 0 <= i < |r| ==> r[i] == ring[Origin(i, k)]
  {
    [ring[0], ring[k]] + Without(ring, k)[1..]
  }

  ghost function Without<T>(ring: seq<T>, k: nat): (r: seq<T>)
    requires k < |ring|
    ensures |r| == |ring| - 1
  {
    ring[..k] + ring[k + 1..]
  }

  /** Where the element at i of ToFront(ring, k) came from. */
  function Origin(i: nat, k: nat): nat {
    if i == 1 then k else if 2 <= i <= k then i - 1 else i
  }

  ghost function IndexIn<T>(ring: seq<T>, x: T): (i: nat)
    requires x in ring
    ensures i < |ring| && ring[i] == x
  {
    var i :| 0 <= i < |ring| && ring[i] == x;
    i
  }

  ghost predicate SameMembers<T>(r: seq<T>, s: seq<T>) {
    && (forall i :: 0 <= i < |r| ==> r[i] in s)
    && (forall i :: 0 <= i < |s| ==> s[i] in r)
  }

  /** The list after these buffers have been released, each in turn moved behind the head. */
  ghost function Released<T>(ring: seq<T>, rels: seq<T>): (r: seq<T>)
    requires Distinct(ring) && 0 < |ring| && forall j :: 0 <= j < |rels| ==> rels[j] in ring[1..]
    ensures Distinct(r) && |r| == |ring| && r[0] == ring[0] && SameMembers(r, ring)
    decreases |rels|
  {
    if rels == [] then ring
    else
      var r := Released(ring, rels[..|rels| - 1]);
      NotTheHead(ring, r, rels[|rels| - 1]);
      MovedOnly(r, IndexIn(r, rels[|rels| - 1]));
      ToFront(r, IndexIn(r, rels[|rels| - 1]))
  }

  lemma NotTheHead<T>(ring: seq<T>, r: seq<T>, z: T)
    requires Distinct(ring) && Distinct(r) && 0 < |ring| == |r| && r[0] == ring[0] && z in ring[1..]
    requires SameMembers(r, ring)
    ensures z in r && 0 < IndexIn(r, z)
  {
    var i :| 0 <= i < |ring| - 1 && ring[1..][i] == z;
    assert ring[i + 1] == z;
  }

  lemma MovedOnly<T>(r: seq<T>, k: nat)
    requires Distinct(r) && 0 < k < |r|
    ensures var t := ToFront(r, k); Distinct(t) && t[0] == r[0] && t[1] == r[k] && SameMembers(t, r)
  {
    var t := ToFront(r, k);
    forall i | 0 <= i < |r| ensures r[i] in t {
      assert t[if i == 0 then 0 else if i < k then i + 1 else if i == k then 1 else i] == r[i];
    }
  }

  /** Position of the last release of x, -1 if there was none. */
  ghost function LastRelease<T>(rels: seq<T>, x: T): (i: int)
    ensures -1 <= i < |rels|
  {
    if rels == [] then -1
    else if rels[|rels| - 1] == x then |rels| - 1
    else LastRelease(rels[..|rels| - 1], x)
  }

  /** Whoever was released later comes earlier. */
  lemma {:induction false} MostRecentFirst<T>(ring: seq<T>, rels: seq<T>, x: T, y: T)
    requires Distinct(ring) && 0 < |ring| && forall j :: 0 <= j < |rels| ==> rels[j] in ring[1..]
    requires x in ring[1..] && y in ring[1..] && LastRelease(rels, x) > LastRelease(rels, y)
    ensures var r := Released(ring, rels); x in r && y in r && IndexIn(r, x) < IndexIn(r, y)
    decreases |rels|
  {
    var init := rels[..|rels| - 1];
    var z := rels[|rels| - 1];
    var r := Released(ring, init);
    NotTheHead(ring, r, z);
    NotTheHead(ring, r, x);
    NotTheHead(ring, r, y);
    var k := IndexIn(r, z);
    MovedOnly(r, k);
    var t := ToFront(r, k);
    assert t == Released(ring, rels);
    if z == x {
      assert t[1] == x && t[0] == r[0] && IndexIn(t, y) > 1;
    } else {
      MostRecentFirst(ring, init, x, y);
      OrderKept(r, k, IndexIn(r, x), IndexIn(r, y));
    }
  }

  /** Moving another element to the front leaves two in their order. */
  lemma OrderKept<T>(r: seq<T>, k: nat, i: nat, j: nat)
    requires Distinct(r) && 0 < k < |r| && 0 < i < j < |r| && i != k && j != k
    ensures var t := ToFront(r, k); r[i] in t && r[j] in t && IndexIn(t, r[i]) < IndexIn(t, r[j])
  {
    MovedOnly(r, k);
    var t := ToFront(r, k);
    var a := if i < k then i + 1 else i;
    var b := if j < k then j + 1 else j;
    assert t[a] == r[i] && t[b] == r[j];
  }

  /** ring is what first has become by these releases. */
  ghost predicate InOrder<T>(first: seq<T>, rels: seq<T>, ring: seq<T>) {
    && Distinct(first) && 0 < |first| && (forall j :: 0 <= j < |rels| ==> rels[j] in first[1..])
    && ring == Released(first, rels)
  }

  lemma ReleasedMore<T>(first: seq<T>, rels: seq<T>, ring: seq<T>, k: nat)
    requires InOrder(first, rels, ring) && 0 < k < |ring|
    ensures InOrder(first, rels + [ring[k]], ToFront(ring, k))
  {
    var all := rels + [ring[k]];
    assert all[..|all| - 1] == rels;
    assert ring[k] in first[1..] by {
      var i :| 0 <= i < |first| && first[i] == ring[k];
      assert first[1..][i - 1] == ring[k];
    }
    NotTheHead(first, ring, ring[k]);
  }
}
