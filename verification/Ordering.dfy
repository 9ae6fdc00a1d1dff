/** Byte-wise string order, and the sorted copies that Go's `slices.Sorted` and
    `sort.Strings` produce. A sorted copy is determined by its elements alone, which is
    what makes every result built from one independent of map and table order. */
module Ordering {

  /** Lexicographic order, as Go compares strings. */
  predicate Le(a: string, b: string) {
    a == "" || (b != "" && (a[0] < b[0] || (a[0] == b[0] && Le(a[1..], b[1..]))))
  }

  /** `a` is a proper prefix of `b`, or has the smaller character where they first differ. */
  ghost predicate Smaller(a: string, b: string) {
    exists k: nat :: DiffersAt(a, b, k)
  }

  predicate DiffersAt(a: string, b: string, k: nat) {
    k <= |a| && k < |b| && a[..k] == b[..k] && (k == |a| || a[k] < b[k])
  }

  /** The recursive order is that one. */
  lemma {:induction false} LeIsSmaller(a: string, b: string)
    ensures Le(a, b) <==> a == b || Smaller(a, b)
    decreases |a|
  {
    if a == "" {
      assert b != "" ==> DiffersAt(a, b, 0);
    } else if b != "" {
      if a[0] < b[0] { assert DiffersAt(a, b, 0); }
      if a[0] == b[0] {
        LeIsSmaller(a[1..], b[1..]);
        if k: nat :| DiffersAt(a[1..], b[1..], k) {
          assert a[..k + 1] == [a[0]] + a[1..][..k] && b[..k + 1] == [b[0]] + b[1..][..k];
          assert DiffersAt(a, b, k + 1);
        }
        assert a == [a[0]] + a[1..] && b == [b[0]] + b[1..];
      }
      if k: nat :| DiffersAt(a, b, k) {
        if k > 0 {
          assert a[0] == a[..k][0] && b[0] == b[..k][0];
          assert a[1..][..k - 1] == a[..k][1..] && b[1..][..k - 1] == b[..k][1..];
          assert DiffersAt(a[1..], b[1..], k - 1);
        }
      }
    }
  }

  lemma SmallerOneWay(a: string, b: string)
    requires Smaller(a, b)
    ensures a != b && !Smaller(b, a)
  {
    var k: nat :| DiffersAt(a, b, k);
    assert a != b;
    LeIsSmaller(a, b);
    LeIsSmaller(b, a);
    if Smaller(b, a) { LeAntisymmetric(a, b); }
  }

  lemma {:induction false} LeTotal(a: string, b: string)
    ensures Le(a, b) || Le(b, a)
    decreases |a|
  {
    if a != "" && b != "" {
      LeTotal(a[1..], b[1..]);
    }
  }

  lemma {:induction false} LeAntisymmetric(a: string, b: string)
    requires Le(a, b) && Le(b, a)
    ensures a == b
    decreases |a|
  {
    if a != "" && b != "" {
      LeAntisymmetric(a[1..], b[1..]);
      assert a == [a[0]] + a[1..] && b == [b[0]] + b[1..];
    }
  }

  lemma {:induction false} LeTransitive(a: string, b: string, c: string)
    requires Le(a, b) && Le(b, c)
    ensures Le(a, c)
    decreases |a|
  {
    if a != "" && a[0] == b[0] == c[0] {
      LeTransitive(a[1..], b[1..], c[1..]);
    }
  }

  ghost predicate Sorted(s: seq<string>) {
    forall i, j :: 0 <= i < j < |s| ==> Le(s[i], s[j])
  }

  ghost predicate Distinct<T>(s: seq<T>) {
    forall i, j :: 0 <= i < j < |s| ==> s[i] != s[j]
  }

  lemma SortedCons(x: string, s: seq<string>)
    requires Sorted(s)
    requires forall i :: 0 <= i < |s| ==> Le(x, s[i])
    ensures Sorted([x] + s)
  {
  }

  function Insert(x: string, s: seq<string>): (r: seq<string>)
    ensures multiset(r) == multiset(s) + multiset{x}
  {
    if s == [] then
      [x]
    else if Le(x, s[0]) then
      [x] + s
    else
      assert s == [s[0]] + s[1..];
      [s[0]] + Insert(x, s[1..])
  }

  lemma {:induction false} InsertSorted(x: string, s: seq<string>)
    requires Sorted(s)
    ensures Sorted(Insert(x, s))
    decreases |s|
  {
    if s != [] {
      LeTotal(x, s[0]);
      if Le(x, s[0]) {
        forall i | 0 <= i < |s|
          ensures Le(x, s[i])
        {
          if i > 0 { LeTransitive(x, s[0], s[i]); }
        }
        SortedCons(x, s);
      } else {
        var rest := Insert(x, s[1..]);
        InsertSorted(x, s[1..]);
        forall i | 0 <= i < |rest|
          ensures Le(s[0], rest[i])
        {
          assert rest[i] in multiset(rest);
        }
        SortedCons(s[0], rest);
      }
    }
  }

  /** `slices.Sorted` on a list, and `sort.Strings`. */
  function Sort(s: seq<string>): (r: seq<string>)
    ensures multiset(r) == multiset(s)
    ensures Sorted(r)
    ensures |r| == |s|
  {
    if s == [] then
      []
    else
      assert s == [s[0]] + s[1..];
      var r := Insert(s[0], Sort(s[1..]));
      InsertSorted(s[0], Sort(s[1..]));
      assert |multiset(r)| == |multiset(s)|;
      r
  }

  lemma SortKeepsElements(s: seq<string>)
    ensures forall x :: x in Sort(s) <==> x in s
  {
    forall x
      ensures x in Sort(s) <==> x in s
    {
      assert x in multiset(Sort(s)) <==> x in multiset(s);
    }
  }

  /** Two sorted lists of the same elements are the same list. */
  lemma {:induction false} SortedUnique(a: seq<string>, b: seq<string>)
    requires Sorted(a) && Sorted(b)
    requires multiset(a) == multiset(b)
    ensures a == b
    decreases |a|
  {
    assert |multiset(a)| == |a| && |multiset(b)| == |b|;
    if a != [] {
      FirstIsLeast(a, b);
      FirstIsLeast(b, a);
      LeAntisymmetric(a[0], b[0]);
      RestElements(a);
      RestElements(b);
      SortedUnique(a[1..], b[1..]);
    }
  }

  lemma RestElements(s: seq<string>)
    requires s != []
    ensures s == [s[0]] + s[1..]
    ensures multiset(s[1..]) == multiset(s) - multiset{s[0]}
  {
  }

  lemma FirstIsLeast(a: seq<string>, b: seq<string>)
    requires Sorted(a) && multiset(a) == multiset(b) && a != [] && b != []
    ensures Le(a[0], b[0])
  {
    assert b[0] in multiset(a);
    var j :| 0 <= j < |a| && a[j] == b[0];
    if j == 0 { LeTotal(a[0], a[0]); }
  }

  /** The sorted copy of a list does not depend on the order it was written in. */
  lemma SortIgnoresOrder(a: seq<string>, b: seq<string>)
    requires multiset(a) == multiset(b)
    ensures Sort(a) == Sort(b)
  {
    SortedUnique(Sort(a), Sort(b));
  }

  lemma {:induction false} LeastExists(s: set<string>)
    requires s != {}
    ensures exists m :: m in s && forall x :: x in s ==> Le(m, x)
    decreases |s|
  {
    var y :| y in s;
    LeTotal(y, y);
    if s == {y} {
      assert y in s && forall x :: x in s ==> Le(y, x);
    } else {
      var rest := s - {y};
      assert s == rest + {y};
      LeastExists(rest);
      var m :| m in rest && forall x :: x in rest ==> Le(m, x);
      LeTotal(m, y);
      if Le(m, y) {
        assert m in s && forall x :: x in s ==> Le(m, x);
      } else {
        forall x | x in s ensures Le(y, x) {
          if x != y { LeTransitive(y, m, x); }
        }
      }
    }
  }

  ghost function Least(s: set<string>): (m: string)
    requires s != {}
    ensures m in s && forall x :: x in s ==> Le(m, x)
  {
    LeastExists(s);
    var m :| m in s && forall x :: x in s ==> Le(m, x);
    m
  }

  /** `slices.Sorted(maps.Keys(m))`: the keys in order, whatever order a map yields them in. */
  ghost function SortedKeys(s: set<string>): (r: seq<string>)
    ensures forall x :: x in r <==> x in s
    ensures |r| == |s|
    decreases |s|
  {
    if s == {} then
      []
    else
      var m := Least(s);
      assert s == (s - {m}) + {m};
      [m] + SortedKeys(s - {m})
  }

  lemma {:induction false} SortedKeysSorted(s: set<string>)
    ensures Sorted(SortedKeys(s)) && Distinct(SortedKeys(s))
    decreases |s|
  {
    if s != {} {
      var m := Least(s);
      var rest := SortedKeys(s - {m});
      SortedKeysSorted(s - {m});
      forall i | 0 <= i < |rest|
        ensures Le(m, rest[i]) && rest[i] != m
      {
        assert rest[i] in rest;
      }
      SortedCons(m, rest);
    }
  }

  lemma {:induction false} DistinctSortedUnique(a: seq<string>, b: seq<string>)
    requires Sorted(a) && Sorted(b) && Distinct(a) && Distinct(b)
    requires forall x :: x in a <==> x in b
    ensures a == b
  {
    forall x
      ensures multiset(a)[x] == multiset(b)[x]
    {
      DistinctCount(a, x);
      DistinctCount(b, x);
    }
    SortedUnique(a, b);
  }

  lemma {:induction false} DistinctCount<T>(s: seq<T>, x: T)
    requires Distinct(s)
    ensures multiset(s)[x] == if x in s then 1 else 0
    decreases |s|
  {
    if s != [] {
      assert s == [s[0]] + s[1..];
      DistinctCount(s[1..], x);
    }
  }

  lemma DistinctFromCount<T>(s: seq<T>)
    requires forall x :: multiset(s)[x] <= 1
    ensures Distinct(s)
  {
    forall i, j | 0 <= i < j < |s|
      ensures s[i] != s[j]
    {
      assert s == s[..j] + [s[j]] + s[j + 1..];
      assert s[i] in s[..j];
      assert multiset(s)[s[j]] == multiset(s[..j])[s[j]] + 1 + multiset(s[j + 1..])[s[j]];
    }
  }

  /** Collects a map's keys in any order and sorts them. */
  method KeysInOrder(s: set<string>) returns (r: seq<string>)
    ensures r == SortedKeys(s)
  {
    var left, found := s, [];
    while left != {}
      invariant left <= s
      invariant forall x :: x in found <==> x in s - left
      invariant Distinct(found)
      decreases |left|
    {
      var x :| x in left;
      assert x !in found && forall i :: 0 <= i < |found| ==> found[i] in found;
      found := found + [x];
      left := left - {x};
    }
    r := Sort(found);
    SortKeepsElements(found);
    forall x
      ensures multiset(r)[x] <= 1
    {
      DistinctCount(found, x);
    }
    DistinctFromCount(r);
    SortedKeysSorted(s);
    DistinctSortedUnique(r, SortedKeys(s));
  }
}
