/**
 Sorting a vector of reals in place, and the counts that say where a value stands in
 the sorted order.
 */
module RealSort {
  ghost predicate IsSorted(s: seq<real>) {
    forall i, j :: 0 <= i <= j < |s| ==> s[i] <= s[j]
  }

  // Puts `x` in its place among the sorted values of `s`.
  function Insert(s: seq<real>, x: real): (r: seq<real>)
    ensures |r| == |s| + 1
  {
    if s == [] || s[|s| - 1] <= x then s + [x]
    else Insert(s[..|s| - 1], x) + [s[|s| - 1]]
  }

  function Sorted(s: seq<real>): (r: seq<real>)
    ensures |r| == |s|
  {
    if s == [] then [] else Insert(Sorted(s[..|s| - 1]), s[|s| - 1])
  }

  lemma {:induction false} InsertIsSorted(s: seq<real>, x: real)
    requires IsSorted(s)
    ensures IsSorted(Insert(s, x))
    ensures forall y :: y in Insert(s, x) ==> y in s || y == x
  {
    if s != [] && s[|s| - 1] > x {
      InsertIsSorted(s[..|s| - 1], x);
      var init := Insert(s[..|s| - 1], x);
      forall i | 0 <= i < |init|
        ensures init[i] <= s[|s| - 1]
      {
        assert init[i] in init;
      }
    }
  }

  lemma {:induction false} SortedIsSorted(s: seq<real>)
    ensures IsSorted(Sorted(s))
  {
    if s != [] {
      SortedIsSorted(s[..|s| - 1]);
      InsertIsSorted(Sorted(s[..|s| - 1]), s[|s| - 1]);
    }
  }

  lemma {:induction false} InsertIsPermutation(s: seq<real>, x: real)
    ensures multiset(Insert(s, x)) == multiset(s) + multiset{x}
  {
    if s != [] && s[|s| - 1] > x {
      InsertIsPermutation(s[..|s| - 1], x);
      assert s == s[..|s| - 1] + [s[|s| - 1]];
    }
  }

  lemma {:induction false} SortedIsPermutation(s: seq<real>)
    ensures multiset(Sorted(s)) == multiset(s)
  {
    if s != [] {
      SortedIsPermutation(s[..|s| - 1]);
      InsertIsPermutation(Sorted(s[..|s| - 1]), s[|s| - 1]);
      assert s == s[..|s| - 1] + [s[|s| - 1]];
    }
  }

  // `x` held at position `j`, with the values it has passed moved up by one.
  function Held(was: seq<real>, n: nat, x: real, j: nat): seq<real>
    requires j < n <= |was|
  {
    was[..j] + [x] + was[j..n - 1] + was[n..]
  }

  lemma HeldSwap(was: seq<real>, n: nat, x: real, j: nat)
    requires 0 < j < n <= |was|
    ensures Held(was, n, x, j)[j - 1] == was[j - 1]
    ensures Held(was, n, x, j)[j := was[j - 1]][j - 1 := x] == Held(was, n, x, j - 1)
  {
  }

  lemma InsertPasses(was: seq<real>, n: nat, x: real, j: nat)
    requires 0 < j < n <= |was| && was[j - 1] > x
    ensures Insert(was[..j], x) + was[j..n - 1] == Insert(was[..j - 1], x) + was[j - 1..n - 1]
  {
    assert was[..j][..j - 1] == was[..j - 1];
    assert [was[j - 1]] + was[j..n - 1] == was[j - 1..n - 1];
  }

  // Sinks the last of the first `n` values into the sorted values before it.
  method Sink(a: array<real>, n: nat)
    requires 0 < n <= a.Length
    modifies a
    ensures a[..] == Insert(old(a[..])[..n - 1], old(a[n - 1])) + old(a[..])[n..]
  {
    ghost var was := a[..];
    var x, j := a[n - 1], n - 1;
    assert a[..] == Held(was, n, x, j);
    while j > 0 && a[j - 1] > x
      invariant 0 <= j < n
      invariant a[..] == Held(was, n, x, j)
      invariant Insert(was[..n - 1], x) == Insert(was[..j], x) + was[j..n - 1]
    {
      HeldSwap(was, n, x, j);
      assert a[j - 1] == was[j - 1] && a[j] == x;
      InsertPasses(was, n, x, j);
      a[j] := a[j - 1];
      a[j - 1] := x;
      j := j - 1;
    }
    InsertStops(was, n, x, j);
  }

  lemma InsertStops(was: seq<real>, n: nat, x: real, j: nat)
    requires j < n <= |was| && (j > 0 ==> Held(was, n, x, j)[j - 1] <= x)
    ensures Held(was, n, x, j) == Insert(was[..j], x) + was[j..n - 1] + was[n..]
  {
    assert j > 0 ==> Held(was, n, x, j)[j - 1] == was[..j][j - 1];
  }

  lemma SortedSplitsLast(s: seq<real>, n: nat)
    requires n < |s|
    ensures var head := Sorted(s[..n]) + s[n..];
            && |head| == |s| && head[..n] == Sorted(s[..n]) && head[n] == s[n] && head[n + 1..] == s[n + 1..]
            && Sorted(s[..n + 1]) == Insert(head[..n], head[n])
  {
    assert s[..n + 1][..n] == s[..n];
  }

  method Sort(a: array<real>)
    modifies a
    ensures a[..] == Sorted(old(a[..]))
  {
    ghost var was := a[..];
    for n := 0 to a.Length
      invariant a[..] == Sorted(was[..n]) + was[n..]
    {
      SortedSplitsLast(was, n);
      Sink(a, n + 1);
    }
    assert was[..a.Length] == was && was[a.Length..] == [];
  }

  method SortedCopy(s: seq<real>) returns (a: array<real>)
    ensures fresh(a) && a[..] == Sorted(s)
  {
    a := new real[|s|](i requires 0 <= i < |s| => s[i]);
    assert a[..] == s;
    Sort(a);
  }

  // ---------------------------------------------------------------------------
  // Ranks
  // ---------------------------------------------------------------------------

  // How many values lie below `v`, and how many above it.
  function Below(s: seq<real>, v: real): (n: nat)
    ensures n <= |s|
  {
    if s == [] then 0 else Below(s[..|s| - 1], v) + if s[|s| - 1] < v then 1 else 0
  }

  function Above(s: seq<real>, v: real): (n: nat)
    ensures n <= |s|
  {
    if s == [] then 0 else Above(s[..|s| - 1], v) + if s[|s| - 1] > v then 1 else 0
  }

  lemma CountsOfAppend(s: seq<real>, x: real, v: real)
    ensures Below(s + [x], v) == Below(s, v) + if x < v then 1 else 0
    ensures Above(s + [x], v) == Above(s, v) + if x > v then 1 else 0
  {
    assert (s + [x])[..|s|] == s;
  }

  lemma {:induction false} CountsOfConcat(a: seq<real>, b: seq<real>, v: real)
    ensures Below(a + b, v) == Below(a, v) + Below(b, v)
    ensures Above(a + b, v) == Above(a, v) + Above(b, v)
  {
    if b == [] {
      assert a + b == a;
    } else {
      CountsOfConcat(a, b[..|b| - 1], v);
      assert a + b == a + b[..|b| - 1] + [b[|b| - 1]];
      CountsOfAppend(a + b[..|b| - 1], b[|b| - 1], v);
    }
  }

  lemma {:induction false} CountsOfInsert(s: seq<real>, x: real, v: real)
    ensures Below(Insert(s, x), v) == Below(s + [x], v)
    ensures Above(Insert(s, x), v) == Above(s + [x], v)
  {
    CountsOfAppend(s, x, v);
    if s != [] && s[|s| - 1] > x {
      CountsOfInsert(s[..|s| - 1], x, v);
      CountsOfAppend(s[..|s| - 1], x, v);
      CountsOfAppend(Insert(s[..|s| - 1], x), s[|s| - 1], v);
    }
  }

  lemma {:induction false} CountsOfSorted(s: seq<real>, v: real)
    ensures Below(Sorted(s), v) == Below(s, v)
    ensures Above(Sorted(s), v) == Above(s, v)
  {
    if s != [] {
      var init, x := s[..|s| - 1], s[|s| - 1];
      CountsOfSorted(init, v);
      CountsOfInsert(Sorted(init), x, v);
      CountsOfAppend(Sorted(init), x, v);
    }
  }

  // In sorted order, the values below `v` come first and the values above it last.
  lemma {:induction false} RankInSorted(s: seq<real>, v: real, i: nat)
    requires IsSorted(s) && i < |s|
    ensures s[i] < v <==> i < Below(s, v)
    ensures s[i] > v <==> i >= |s| - Above(s, v)
  {
    var init := s[..|s| - 1];
    if i < |init| {
      RankInSorted(init, v, i);
    } else if init != [] {
      RankInSorted(init, v, |init| - 1);
    }
  }

  lemma LastIsGreatest(s: seq<real>, x: real)
    requires IsSorted(s) && x in s
    ensures x <= s[|s| - 1]
  {
  }

  lemma InitLosesLast(s: seq<real>)
    requires s != []
    ensures multiset(s[..|s| - 1]) == multiset(s) - multiset{s[|s| - 1]}
  {
    assert s == s[..|s| - 1] + [s[|s| - 1]];
  }

  lemma LastsAgree(a: seq<real>, b: seq<real>)
    requires IsSorted(a) && IsSorted(b) && multiset(a) == multiset(b) && a != [] && b != []
    ensures a[|a| - 1] == b[|b| - 1]
  {
    var x, y := a[|a| - 1], b[|b| - 1];
    assert x in multiset(b) && y in multiset(a);
    LastIsGreatest(b, x);
    LastIsGreatest(a, y);
  }

  lemma SameLength(a: seq<real>, b: seq<real>)
    requires multiset(a) == multiset(b)
    ensures |a| == |b|
  {
    assert |a| == |multiset(a)| && |b| == |multiset(b)|;
  }

  // Two sorted orders of the same values are the same: the order does not depend
  // on how the values were sorted.
  lemma {:induction false} SortedOrderIsUnique(a: seq<real>, b: seq<real>)
    requires IsSorted(a) && IsSorted(b) && multiset(a) == multiset(b)
    ensures a == b
  {
    SameLength(a, b);
    if a != [] {
      LastsAgree(a, b);
      InitLosesLast(a);
      InitLosesLast(b);
      SortedOrderIsUnique(a[..|a| - 1], b[..|b| - 1]);
      assert a == a[..|a| - 1] + [a[|a| - 1]];
    }
  }
}
