/** Machine words, and counting the elements of sequences and sets. */
module Basics {
  type Word = x: int | 0 <= x < 0x1_0000_0000

  function Min(a: nat, b: nat): nat {
    if a < b then a else b
  }

  function Max(a: nat, b: nat): nat {
    if a < b then b else a
  }

  ghost predicate Distinct<T>(s: seq<T>) {
    forall i, j :: 0 <= i < j < |s| ==> s[i] != s[j]
  }

  ghost function Elements<T>(s: seq<T>): set<T> {
    set x | x in s
  }

  lemma {:induction false} SizeOfDistinct<T>(s: seq<T>)
    requires Distinct(s)
    ensures |Elements(s)| == |s|
  {
    if s != [] {
      var n := |s| - 1;
      SizeOfDistinct(s[..n]);
      assert Elements(s) == Elements(s[..n]) + {s[n]};
    }
  }

  lemma {:induction false} SizeAtMost<T>(s: seq<T>)
    ensures |Elements(s)| <= |s|
  {
    if s != [] {
      var n := |s| - 1;
      SizeAtMost(s[..n]);
      assert Elements(s) == Elements(s[..n]) + {s[n]};
    }
  }

  lemma SubsetSize<T>(a: set<T>, b: set<T>)
    requires a <= b
    ensures |a| <= |b|
    ensures |a| == |b| ==> a == b
  {
    assert b == a + (b - a);
  }

  lemma Pigeonhole<T>(bufs: seq<T>, used: seq<T>)
    requires Distinct(bufs) && |used| < |bufs|
    ensures exists b :: b in bufs && b !in used
  {
    SizeOfDistinct(bufs);
    SizeAtMost(used);
    if forall b :: b in bufs ==> b in used {
      SubsetSize(Elements(bufs), Elements(used));
    }
  }

  /** Two sets between which f is a one-to-one correspondence have the same size. */
  lemma {:induction false} SameSize<A, B>(a: set<A>, b: set<B>, f: map<A, B>)
    requires forall x :: x in a ==> x in f && f[x] in b
    requires forall y :: y in b ==> exists x :: x in a && f[x] == y
    requires forall x, y :: x in a && y in a && f[x] == f[y] ==> x == y
    ensures |a| == |b|
    decreases |a|
  {
    if a == {} {
      assert b == {};
    } else {
      var x :| x in a;
      forall y | y in b - {f[x]}
        ensures exists z :: z in a - {x} && f[z] == y
      {
        var z :| z in a && f[z] == y;
        assert z in a - {x};
      }
      SameSize(a - {x}, b - {f[x]}, f);
    }
  }
}
