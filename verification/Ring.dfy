/** Pointer rings: following a "next" pointer repeatedly, and what it means for a set of channels
    to lie on one single cycle of those pointers. */
module Ring {

  predicate NoDup<T(==)>(s: seq<T>) {
    forall i, j :: 0 <= i < j < |s| ==> s[i] != s[j]
  }

  function Elements<T>(s: seq<T>): set<T> {
    set x | x in s
  }

  /** Where k pointers lead, starting from channel x. */
  function Hop(next: int -> int, x: int, k: nat): int {
    if k == 0 then x else next(Hop(next, x, k - 1))
  }

  /** Every member reaches every member in fewer than |members| hops, never leaves the members,
      and comes back to itself after exactly |members| hops and not before. */
  ghost predicate SingleCycle(next: int -> int, members: set<int>) {
    && (forall x :: x in members ==> next(x) in members)
    && (forall x, y :: x in members && y in members ==> exists k: nat :: k < |members| && Hop(next, x, k) == y)
    && (forall x :: x in members ==> Hop(next, x, |members|) == x)
    && (forall x, k: nat :: x in members && 0 < k < |members| ==> Hop(next, x, k) != x)
  }

  lemma {:induction false} NoDupCardinality<T>(s: seq<T>)
    requires NoDup(s)
    ensures |Elements(s)| == |s|
  {
    if s == [] {
      assert Elements(s) == {};
    } else {
      var front, last := s[..|s| - 1], s[|s| - 1];
      NoDupCardinality(front);
      assert Elements(s) == Elements(front) + {last} by {
        assert s == front + [last];
      }
      assert last !in Elements(front);
    }
  }

  /** From position i of a list whose pointers go round it, k hops lead to position (i + k) mod n. */
  lemma {:induction false} HopOnRing(next: int -> int, ring: seq<int>, i: nat, k: nat)
    requires i < |ring|
    requires forall j :: 0 <= j < |ring| ==> next(ring[j]) == ring[(j + 1) % |ring|]
    ensures Hop(next, ring[i], k) == ring[(i + k) % |ring|]
  {
    if k == 0 {
      ModUnique(i, |ring|, 0, i);
    } else {
      HopOnRing(next, ring, i, k - 1);
      ModStep(i + (k - 1), |ring|);
    }
  }

  lemma ModStep(a: nat, n: nat)
    requires n > 0
    ensures (a % n + 1) % n == (a + 1) % n
  {
    var q, r := a / n, a % n;
    assert a == q * n + r;
    if r + 1 < n {
      ModUnique(a + 1, n, q, r + 1);
    } else {
      assert a + 1 == (q + 1) * n + 0;
      ModUnique(a + 1, n, q + 1, 0);
    }
  }

  lemma ModUnique(a: nat, n: nat, q: nat, r: nat)
    requires r < n && a == q * n + r
    ensures a / n == q && a % n == r
  {
    var q', r' := a / n, a % n;
    assert (q - q') * n == r' - r by {
      MulSub(q, q', n);
    }
    if q != q' {
      MulAtLeast(q - q', n);
      assert false;
    }
  }

  lemma MulSub(x: int, y: int, n: int)
    ensures (x - y) * n == x * n - y * n
  {
  }

  lemma MulAtLeast(d: int, n: nat)
    requires d != 0
    ensures d * n >= n || d * n + n <= 0
  {
    if d > 0 { assert (d - 1) * n >= 0; } else { assert (-d - 1) * n >= 0; }
  }

  /** Pointers that go round a list of distinct channels form one single cycle. */
  lemma RingIsSingleCycle(next: int -> int, ring: seq<int>)
    requires NoDup(ring) && ring != []
    requires forall j :: 0 <= j < |ring| ==> next(ring[j]) == ring[(j + 1) % |ring|]
    ensures SingleCycle(next, Elements(ring))
  {
    var n := |ring|;
    NoDupCardinality(ring);
    forall x, y | x in Elements(ring) && y in Elements(ring)
      ensures exists k: nat :: k < n && Hop(next, x, k) == y
    {
      var i :| 0 <= i < n && ring[i] == x;
      var j :| 0 <= j < n && ring[j] == y;
      var k := if i <= j then j - i else j + n - i;
      HopOnRing(next, ring, i, k);
      if i <= j { ModUnique(i + k, n, 0, j); } else { ModUnique(i + k, n, 1, j); }
      assert Hop(next, x, k) == y;
    }
    forall x | x in Elements(ring)
      ensures Hop(next, x, n) == x && next(x) in Elements(ring)
    {
      var i :| 0 <= i < n && ring[i] == x;
      HopOnRing(next, ring, i, n);
      ModUnique(i + n, n, 1, i);
    }
    forall x, k: nat | x in Elements(ring) && 0 < k < n
      ensures Hop(next, x, k) != x
    {
      var i :| 0 <= i < n && ring[i] == x;
      HopOnRing(next, ring, i, k);
      if i + k < n { ModUnique(i + k, n, 0, i + k); } else { ModUnique(i + k, n, 1, i + k - n); }
    }
  }
}
