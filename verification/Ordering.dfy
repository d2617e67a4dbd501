/** Strict total orders, sorting, and why an unstable sort is deterministic when
    its comparator tells any two different elements apart. */
module Ordering {

  ghost predicate StrictTotal<T(!new)>(less: (T, T) -> bool) {
    && (forall x :: !less(x, x))
    && (forall x, y :: less(x, y) || x == y || less(y, x))
    && (forall x, y, z :: less(x, y) && less(y, z) ==> less(x, z))
  }

  ghost predicate Sorted<T>(s: seq<T>, less: (T, T) -> bool) {
    forall i, j :: 0 <= i < j < |s| ==> !less(s[j], s[i])
  }

  function Insert<T>(x: T, s: seq<T>, less: (T, T) -> bool): seq<T> {
    if s == [] || less(x, s[0]) then [x] + s else [s[0]] + Insert(x, s[1..], less)
  }

  function Sort<T>(s: seq<T>, less: (T, T) -> bool): seq<T> {
    if s == [] then [] else Insert(s[0], Sort(s[1..], less), less)
  }

  lemma {:induction false} InsertContents<T>(x: T, s: seq<T>, less: (T, T) -> bool)
    ensures multiset(Insert(x, s, less)) == multiset{x} + multiset(s)
  {
    if s != [] && !less(x, s[0]) {
      InsertContents(x, s[1..], less);
      assert s == [s[0]] + s[1..];
    }
  }

  lemma SortedCons<T>(x: T, s: seq<T>, less: (T, T) -> bool)
    requires Sorted(s, less) && forall y <- s :: !less(y, x)
    ensures Sorted([x] + s, less)
  {
  }

  lemma {:induction false} InsertSorted<T(!new)>(x: T, s: seq<T>, less: (T, T) -> bool)
    requires StrictTotal(less) && Sorted(s, less)
    ensures Sorted(Insert(x, s, less), less)
  {
    if s != [] && !less(x, s[0]) {
      InsertSorted(x, s[1..], less);
      InsertContents(x, s[1..], less);
      var tail := Insert(x, s[1..], less);
      forall y <- tail ensures !less(y, s[0]) {
        assert y in multiset(tail);
        assert y == x || y in s[1..];
      }
      SortedCons(s[0], tail, less);
    } else {
      SortedCons(x, s, less);
    }
  }

  lemma InsertKeeps<T(!new)>(x: T, s: seq<T>, less: (T, T) -> bool)
    requires StrictTotal(less) && Sorted(s, less)
    ensures multiset(Insert(x, s, less)) == multiset{x} + multiset(s)
    ensures Sorted(Insert(x, s, less), less)
  {
    InsertContents(x, s, less);
    InsertSorted(x, s, less);
  }

  lemma {:induction false} SortSorts<T(!new)>(s: seq<T>, less: (T, T) -> bool)
    requires StrictTotal(less)
    ensures Sorted(Sort(s, less), less) && multiset(Sort(s, less)) == multiset(s)
  {
    if s != [] {
      SortSorts(s[1..], less);
      InsertKeeps(s[0], Sort(s[1..], less), less);
      assert s == [s[0]] + s[1..];
    }
  }

  lemma SortedHeads<T(!new)>(a: seq<T>, b: seq<T>, less: (T, T) -> bool)
    requires StrictTotal(less) && Sorted(a, less) && Sorted(b, less)
    requires multiset(a) == multiset(b) && a != []
    ensures b != [] && a[0] == b[0]
  {
    assert a[0] in multiset(b);
    var k :| 0 <= k < |b| && b[k] == a[0];
    assert b[0] in multiset(a);
    var m :| 0 <= m < |a| && a[m] == b[0];
    assert k == 0 || !less(b[k], b[0]);
    assert m == 0 || !less(a[m], a[0]);
  }

  lemma TailsPermute<T>(a: seq<T>, b: seq<T>)
    requires multiset(a) == multiset(b) && a != [] && b != [] && a[0] == b[0]
    ensures multiset(a[1..]) == multiset(b[1..])
  {
    assert a == [a[0]] + a[1..] && b == [b[0]] + b[1..];
    assert multiset(a[1..]) == multiset(a) - multiset{a[0]};
  }

  /** Two sorted permutations of one another are equal. */
  lemma {:induction false} SortedUnique<T(!new)>(a: seq<T>, b: seq<T>, less: (T, T) -> bool)
    requires StrictTotal(less) && Sorted(a, less) && Sorted(b, less)
    requires multiset(a) == multiset(b)
    ensures a == b
  {
    if a == [] {
      assert |multiset(b)| == 0;
    } else {
      SortedHeads(a, b, less);
      TailsPermute(a, b);
      SortedUnique(a[1..], b[1..], less);
      assert a == [a[0]] + a[1..] && b == [b[0]] + b[1..];
    }
  }

  /** Sorting forgets exactly the order of the elements. */
  lemma SortsAgree<T(!new)>(a: seq<T>, b: seq<T>, less: (T, T) -> bool)
    requires StrictTotal(less)
    ensures Sort(a, less) == Sort(b, less) <==> multiset(a) == multiset(b)
  {
    SortSorts(a, less);
    SortSorts(b, less);
    if multiset(a) == multiset(b) {
      SortedUnique(Sort(a, less), Sort(b, less), less);
    }
  }

  /** What an unstable library sort promises: sorted, and a permutation. */
  method SortSlice<T(!new)>(a: array<T>, less: (T, T) -> bool)
    requires StrictTotal(less)
    modifies a
    ensures Sorted(a[..], less) && multiset(a[..]) == multiset(old(a[..]))
  {
    var s := Sort(a[..], less);
    SortSorts(a[..], less);
    assert |s| == a.Length by {
      assert |multiset(s)| == |multiset(a[..])|;
    }
    forall i | 0 <= i < a.Length {
      a[i] := s[i];
    }
    assert a[..] == s;
  }

  // ------------------------------------------------------------------ strings

  /** Byte-wise lexicographic order. */
  predicate StringLess(a: string, b: string) {
    b != "" && (a == "" || a[0] < b[0] || (a[0] == b[0] && StringLess(a[1..], b[1..])))
  }

  lemma {:induction false} StringIrreflexive(a: string)
    ensures !StringLess(a, a)
  {
    if a != "" {
      StringIrreflexive(a[1..]);
    }
  }

  lemma {:induction false} StringTotal(a: string, b: string)
    ensures StringLess(a, b) || a == b || StringLess(b, a)
  {
    if a != "" && b != "" {
      StringTotal(a[1..], b[1..]);
      assert a == [a[0]] + a[1..] && b == [b[0]] + b[1..];
    }
  }

  lemma {:induction false} StringTransitive(a: string, b: string, c: string)
    requires StringLess(a, b) && StringLess(b, c)
    ensures StringLess(a, c)
  {
    if a != "" && a[0] == b[0] == c[0] {
      StringTransitive(a[1..], b[1..], c[1..]);
    }
  }

  lemma StringOrder()
    ensures StrictTotal(StringLess)
  {
    forall a ensures !StringLess(a, a) {
      StringIrreflexive(a);
    }
    forall a, b ensures StringLess(a, b) || a == b || StringLess(b, a) {
      StringTotal(a, b);
    }
    forall a, b, c | StringLess(a, b) && StringLess(b, c) ensures StringLess(a, c) {
      StringTransitive(a, b, c);
    }
  }

  /** The first place where the strings differ decides, and a proper beginning comes first. */
  ghost predicate DecidedAt(a: string, b: string, k: nat) {
    && k <= |a| && k < |b| && a[..k] == b[..k]
    && (k == |a| || a[k] < b[k])
  }

  lemma {:induction false} StringLessMeans(a: string, b: string)
    ensures StringLess(a, b) <==> exists k: nat :: DecidedAt(a, b, k)
  {
    if StringLess(a, b) {
      var k := LessAt(a, b);
    }
    if k: nat :| DecidedAt(a, b, k) {
      DecidedIsLess(a, b, k);
    }
  }

  lemma {:induction false} LessAt(a: string, b: string) returns (k: nat)
    requires StringLess(a, b)
    ensures DecidedAt(a, b, k)
  {
    if a == "" || a[0] < b[0] {
      k := 0;
    } else {
      k := LessAt(a[1..], b[1..]);
      k := k + 1;
      assert a[..k] == [a[0]] + a[1..][..k - 1] && b[..k] == [b[0]] + b[1..][..k - 1];
    }
  }

  lemma {:induction false} DecidedIsLess(a: string, b: string, k: nat)
    requires DecidedAt(a, b, k)
    ensures StringLess(a, b)
  {
    if k > 0 {
      assert a[0] == a[..k][0] == b[..k][0] == b[0];
      assert a[1..][..k - 1] == a[..k][1..] && b[1..][..k - 1] == b[..k][1..];
      DecidedIsLess(a[1..], b[1..], k - 1);
    }
  }
}
