/**
 * uniqueStrings: the collected queries reduced to their distinct values,
 * sorted ascending.
 */
module Unique {
  import opened StringOrder

  // ---------------------------------------------------------------------------
  // The reference definition: insert each string into a strictly ascending list.

  /** `s` with `x` inserted in order; unchanged when `x` is already there. */
  function Insert(x: string, s: seq<string>): seq<string>
  {
    if s == [] then [x]
    else if x == s[0] then s
    else if Below(x, s[0]) then [x] + s
    else [s[0]] + Insert(x, s[1..])
  }

  /** The distinct strings of `xs` in ascending order. */
  function SortUnique(xs: seq<string>): seq<string>
  {
    if xs == [] then [] else Insert(xs[0], SortUnique(xs[1..]))
  }

  lemma {:induction false} InsertKeepsOrder(x: string, s: seq<string>)
    requires StrictlyAscending(s)
    ensures StrictlyAscending(Insert(x, s))
    ensures forall y :: y in Insert(x, s) <==> y == x || y in s
  {
    if s == [] || x == s[0] {
    } else if Below(x, s[0]) {
      var r := [x] + s;
      forall i, j | 0 <= i < j < |r| ensures Below(r[i], r[j]) {
        if i == 0 && j > 1 {
          BelowTransitive(x, s[0], s[j - 1]);
        }
      }
    } else {
      BelowTotal(x, s[0]);
      var t := Insert(x, s[1..]);
      InsertKeepsOrder(x, s[1..]);
      var r := [s[0]] + t;
      forall i, j | 0 <= i < j < |r| ensures Below(r[i], r[j]) {
        if i == 0 {
          assert r[j] == t[j - 1] && t[j - 1] in t;
          if r[j] != x {
            var k :| 0 <= k < |s[1..]| && s[1..][k] == r[j];
            assert s[k + 1] == r[j];
          }
        }
      }
      assert Insert(x, s) == r;
    }
  }

  lemma {:induction false} SortUniqueSorted(xs: seq<string>)
    ensures StrictlyAscending(SortUnique(xs))
    ensures forall y :: y in SortUnique(xs) <==> y in xs
  {
    if xs != [] {
      SortUniqueSorted(xs[1..]);
      InsertKeepsOrder(xs[0], SortUnique(xs[1..]));
      assert xs == [xs[0]] + xs[1..];
    }
  }

  /** A strictly ascending list is determined by its elements. */
  lemma {:induction false} StrictlyAscendingDetermined(a: seq<string>, b: seq<string>)
    requires StrictlyAscending(a) && StrictlyAscending(b)
    requires forall y :: y in a <==> y in b
    ensures a == b
  {
    if a != [] {
      assert a[0] in b;
    }
    if b != [] {
      assert b[0] in a;
    }
    if a != [] && b != [] {
      if a[0] != b[0] {
        assert b[0] in a && a[0] in b;
        var i :| 0 <= i < |a| && a[i] == b[0];
        var j :| 0 <= j < |b| && b[j] == a[0];
        assert Below(a[0], b[0]) && Below(b[0], a[0]);
        BelowAsymmetric(a[0], b[0]);
        assert false;
      }
      forall y ensures y in a[1..] <==> y in b[1..] {
        if y in a[1..] {
          var i :| 1 <= i < |a| && a[i] == y;
          BelowIrreflexive(y);
          assert y in b && y != b[0];
        }
        if y in b[1..] {
          var j :| 1 <= j < |b| && b[j] == y;
          BelowIrreflexive(y);
          assert y in a && y != a[0];
        }
      }
      StrictlyAscendingDetermined(a[1..], b[1..]);
      assert a == [a[0]] + a[1..] && b == [b[0]] + b[1..];
    }
  }

  /** The result depends only on which strings were collected: not on order, not on repetition. */
  lemma SortUniqueOrderIndependent(xs: seq<string>, ys: seq<string>)
    requires forall y :: y in xs <==> y in ys
    ensures SortUnique(xs) == SortUnique(ys)
  {
    SortUniqueSorted(xs);
    SortUniqueSorted(ys);
    StrictlyAscendingDetermined(SortUnique(xs), SortUnique(ys));
  }

  /** In particular every permutation of the input gives the same result. */
  lemma SortUniquePermutation(xs: seq<string>, ys: seq<string>)
    requires multiset(xs) == multiset(ys)
    ensures SortUnique(xs) == SortUnique(ys)
  {
    forall y ensures y in xs <==> y in ys {
      assert y in xs <==> y in multiset(xs);
      assert y in ys <==> y in multiset(ys);
    }
    SortUniqueOrderIndependent(xs, ys);
  }

  /** A strictly ascending list is left as it is. */
  lemma SortUniqueKeepsSorted(s: seq<string>)
    requires StrictlyAscending(s)
    ensures SortUnique(s) == s
  {
    SortUniqueSorted(s);
    StrictlyAscendingDetermined(SortUnique(s), s);
  }

  lemma SortUniqueIdempotent(xs: seq<string>)
    ensures SortUnique(SortUnique(xs)) == SortUnique(xs)
  {
    SortUniqueSorted(xs);
    SortUniqueKeepsSorted(SortUnique(xs));
  }

  lemma {:induction false} StrictlyAscendingCounts(s: seq<string>, x: string)
    requires StrictlyAscending(s)
    ensures multiset(s)[x] == if x in s then 1 else 0
  {
    if s != [] {
      StrictlyAscendingCounts(s[1..], x);
      assert s == [s[0]] + s[1..];
      if x == s[0] && x in s[1..] {
        var i :| 1 <= i < |s| && s[i] == x;
        BelowIrreflexive(x);
      }
    }
  }

  /** Every collected string occurs exactly once in the result, and nothing else occurs. */
  lemma SortUniqueOnce(xs: seq<string>, x: string)
    ensures multiset(SortUnique(xs))[x] == if x in xs then 1 else 0
  {
    SortUniqueSorted(xs);
    StrictlyAscendingCounts(SortUnique(xs), x);
  }

  // ---------------------------------------------------------------------------
  // The imperative version.

  /**
   * sort.Strings: sorts the slice in place into ascending order. (The
   * library's own algorithm differs; this insertion sort meets the same
   * contract.)
   */
  method SortStrings(a: array<string>)
    modifies a
    ensures Ascending(a[..])
    ensures multiset(a[..]) == old(multiset(a[..]))
  {
    var i := 0;
    while i < a.Length
      invariant 0 <= i <= a.Length
      invariant forall k :: 0 < k < i ==> !Below(a[k], a[k - 1])
      invariant multiset(a[..]) == old(multiset(a[..]))
    {
      var j := i;
      while 0 < j && Below(a[j], a[j - 1])
        invariant 0 <= j <= i
        invariant forall k :: 0 < k <= i && k != j ==> !Below(a[k], a[k - 1])
        invariant 0 < j < i ==> !Below(a[j + 1], a[j - 1])
        invariant multiset(a[..]) == old(multiset(a[..]))
      {
        BelowAsymmetric(a[j], a[j - 1]);
        SwapDown(a, j);
        j := j - 1;
      }
      i := i + 1;
    }
    NeighboursAscending(a[..]);
  }

  /** Exchanges a[j - 1] and a[j]. */
  method SwapDown(a: array<string>, j: nat)
    requires 0 < j < a.Length
    modifies a
    ensures a[..] == old(a[..])[j - 1 := old(a[j])][j := old(a[j - 1])]
    ensures multiset(a[..]) == old(multiset(a[..]))
  {
    a[j - 1], a[j] := a[j], a[j - 1];
  }

  lemma TwiceCounted(s: seq<string>, i: nat, j: nat)
    requires i < j < |s| && s[i] == s[j]
    ensures multiset(s)[s[i]] >= 2
  {
    assert s == s[..i] + [s[i]] + s[i + 1..j] + [s[j]] + s[j + 1..];
  }

  /**
   * uniqueStrings: puts every string into a set (the Go map), lists the set in
   * whatever order it yields its keys, and sorts that list. The result is the
   * strictly ascending list of the distinct input strings, whatever the
   * iteration order was.
   */
  method UniqueStrings(strings: seq<string>) returns (unique: seq<string>)
    ensures StrictlyAscending(unique)
    ensures forall s :: s in unique <==> s in strings
    ensures unique == SortUnique(strings)
  {
    var m: set<string> := {};
    for i := 0 to |strings|
      invariant forall s :: s in m <==> s in strings[..i]
    {
      m := m + {strings[i]};
    }
    assert strings[..|strings|] == strings;

    unique := [];
    var rest := m;
    while rest != {}
      invariant rest <= m
      invariant multiset(unique) + multiset(rest) == multiset(m)
      decreases rest
    {
      var s :| s in rest;
      unique := unique + [s];
      rest := rest - {s};
    }

    assert multiset(unique) == multiset(m);

    var a := new string[|unique|](k requires 0 <= k < |unique| => unique[k]);
    assert a[..] == unique;
    SortStrings(a);
    unique := a[..];
    assert multiset(unique) == multiset(m);

    forall s ensures s in unique <==> s in m {
      assert s in unique <==> s in multiset(unique);
      assert s in m <==> s in multiset(m);
    }
    forall i, j | 0 <= i < j < |unique| ensures Below(unique[i], unique[j]) {
      if unique[i] == unique[j] {
        TwiceCounted(unique, i, j);
        assert false;
      }
      BelowTotal(unique[i], unique[j]);
    }
    SortUniqueSorted(strings);
    StrictlyAscendingDetermined(unique, SortUnique(strings));
  }
}
