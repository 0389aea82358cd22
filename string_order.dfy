/**
 * Go's ordering of strings (the `<` that sort.Strings uses): lexicographic,
 * element by element, a proper prefix before the longer string.
 */
module StringOrder {

  /** `a` sorts strictly before `b`. */
  predicate Below(a: string, b: string)
  {
    if a == [] then b != []
    else if b == [] then false
    else if a[0] != b[0] then a[0] < b[0]
    else Below(a[1..], b[1..])
  }

  lemma {:induction false} BelowIrreflexive(a: string)
    ensures !Below(a, a)
  {
    if a != [] {
      BelowIrreflexive(a[1..]);
    }
  }

  lemma {:induction false} BelowAsymmetric(a: string, b: string)
    ensures Below(a, b) ==> !Below(b, a)
  {
    if a != [] && b != [] && a[0] == b[0] {
      BelowAsymmetric(a[1..], b[1..]);
    }
  }

  lemma {:induction false} BelowTransitive(a: string, b: string, c: string)
    requires Below(a, b) && Below(b, c)
    ensures Below(a, c)
  {
    if a != [] && a[0] == b[0] && b[0] == c[0] {
      BelowTransitive(a[1..], b[1..], c[1..]);
    }
  }

  lemma {:induction false} BelowTotal(a: string, b: string)
    requires a != b
    ensures Below(a, b) || Below(b, a)
  {
    if a != [] && b != [] && a[0] == b[0] {
      assert a == [a[0]] + a[1..] && b == [b[0]] + b[1..];
      BelowTotal(a[1..], b[1..]);
    }
  }

  /** "Not after": the non-strict order. */
  lemma NotBelowTransitive(a: string, b: string, c: string)
    requires !Below(b, a) && !Below(c, b)
    ensures !Below(c, a)
  {
    if Below(c, a) {
      if a == b {
        assert false;
      } else if b == c {
        assert false;
      } else {
        BelowTotal(a, b);
        BelowTotal(b, c);
        BelowTransitive(a, b, c);
        BelowAsymmetric(c, a);
      }
    }
  }

  /** Sorted in ascending order, equal neighbours allowed. */
  ghost predicate Ascending(s: seq<string>)
  {
    forall i, j :: 0 <= i < j < |s| ==> !Below(s[j], s[i])
  }

  /** Sorted in strictly ascending order, hence without duplicates. */
  ghost predicate StrictlyAscending(s: seq<string>)
  {
    forall i, j :: 0 <= i < j < |s| ==> Below(s[i], s[j])
  }

  /** Checking neighbours is enough for a sequence to be ascending. */
  lemma {:induction false} NeighboursAscending(s: seq<string>)
    requires forall k :: 0 < k < |s| ==> !Below(s[k], s[k - 1])
    ensures Ascending(s)
  {
    forall i, j | 0 <= i < j < |s|
      ensures !Below(s[j], s[i])
    {
      var k := i + 1;
      while k < j
        invariant i < k <= j
        invariant !Below(s[k], s[i])
      {
        NotBelowTransitive(s[i], s[k], s[k + 1]);
        k := k + 1;
      }
    }
  }
}
