/** Stable sorting by a comparison, as the built-in sort does it. */
module Sorting {

  ghost predicate TotalPreorder<T(!new)>(le: (T, T) -> bool) {
    && (forall a, b :: le(a, b) || le(b, a))
    && (forall a, b, c :: le(a, b) && le(b, c) ==> le(a, c))
  }

  ghost predicate TotalOrder<T(!new)>(le: (T, T) -> bool) {
    TotalPreorder(le) && forall a, b :: le(a, b) && le(b, a) ==> a == b
  }

  predicate Sorted<T>(le: (T, T) -> bool, s: seq<T>) {
    forall i, j :: 0 <= i < j < |s| ==> le(s[i], s[j])
  }

  function Insert<T>(le: (T, T) -> bool, x: T, s: seq<T>): seq<T> {
    if s == [] then [x]
    else if le(x, s[0]) then [x] + s
    else [s[0]] + Insert(le, x, s[1..])
  }

  function Sort<T>(le: (T, T) -> bool, s: seq<T>): seq<T> {
    if s == [] then [] else Insert(le, s[0], Sort(le, s[1..]))
  }

  lemma {:induction false} InsertMultiset<T>(le: (T, T) -> bool, x: T, s: seq<T>)
    ensures multiset(Insert(le, x, s)) == multiset{x} + multiset(s)
  {
    if s != [] {
      assert s == [s[0]] + s[1..];
      if !le(x, s[0]) {
        InsertMultiset(le, x, s[1..]);
      }
    }
  }

  /** Sorting only rearranges. */
  lemma {:induction false} SortMultiset<T>(le: (T, T) -> bool, s: seq<T>)
    ensures multiset(Sort(le, s)) == multiset(s)
    ensures |Sort(le, s)| == |s|
  {
    if s != [] {
      assert s == [s[0]] + s[1..];
      SortMultiset(le, s[1..]);
      InsertMultiset(le, s[0], Sort(le, s[1..]));
      assert |multiset(Sort(le, s))| == |multiset(s)|;
    }
  }

  lemma SortMember<T>(le: (T, T) -> bool, s: seq<T>, x: T)
    ensures x in Sort(le, s) <==> x in s
  {
    SortMultiset(le, s);
    assert x in Sort(le, s) <==> x in multiset(Sort(le, s));
    assert x in s <==> x in multiset(s);
  }

  lemma {:induction false} InsertSorted<T(!new)>(le: (T, T) -> bool, x: T, s: seq<T>)
    requires TotalPreorder(le) && Sorted(le, s)
    ensures Sorted(le, Insert(le, x, s))
  {
    if s != [] && !le(x, s[0]) {
      InsertSorted(le, x, s[1..]);
      var r := Insert(le, x, s[1..]);
      InsertMultiset(le, x, s[1..]);
      forall y | y in r ensures le(s[0], y) {
        assert y in multiset(r);
        if y != x {
          assert y in s[1..];
        }
      }
    }
  }

  lemma {:induction false} SortSorted<T(!new)>(le: (T, T) -> bool, s: seq<T>)
    requires TotalPreorder(le)
    ensures Sorted(le, Sort(le, s))
  {
    if s != [] {
      SortSorted(le, s[1..]);
      InsertSorted(le, s[0], Sort(le, s[1..]));
    }
  }

  lemma TailMultiset<T>(s: seq<T>)
    requires s != []
    ensures multiset(s[1..]) == multiset(s) - multiset{s[0]}
  {
    assert s == [s[0]] + s[1..];
  }

  lemma SortedHead<T(!new)>(le: (T, T) -> bool, a: seq<T>, x: T)
    requires TotalPreorder(le) && Sorted(le, a) && x in a
    ensures le(a[0], x)
  {
    assert le(x, x);
  }

  lemma SameMembers<T>(a: seq<T>, b: seq<T>)
    requires multiset(a) == multiset(b)
    ensures |a| == |b| && forall x :: x in a <==> x in b
  {
    assert |multiset(a)| == |multiset(b)|;
    assert forall x :: x in a <==> x in multiset(a);
    assert forall x :: x in b <==> x in multiset(b);
  }

  lemma OrderIsPreorder<T(!new)>(le: (T, T) -> bool)
    requires TotalOrder(le)
    ensures TotalPreorder(le)
  {}

  lemma Antisymmetric<T(!new)>(le: (T, T) -> bool, x: T, y: T)
    requires TotalOrder(le) && le(x, y) && le(y, x)
    ensures x == y
  {}

  lemma SortedTail<T(!new)>(le: (T, T) -> bool, s: seq<T>)
    requires Sorted(le, s) && s != []
    ensures Sorted(le, s[1..])
  {}

  lemma {:induction false} SortedUnique<T(!new)>(le: (T, T) -> bool, a: seq<T>, b: seq<T>)
    requires TotalOrder(le) && Sorted(le, a) && Sorted(le, b) && multiset(a) == multiset(b)
    ensures a == b
  {
    hide TotalOrder, Sorted;
    SameMembers(a, b);
    if a != [] {
      assert a[0] in b && b[0] in a;
      OrderIsPreorder(le);
      SortedHead(le, a, b[0]);
      SortedHead(le, b, a[0]);
      Antisymmetric(le, a[0], b[0]);
      TailMultiset(a);
      TailMultiset(b);
      SortedTail(le, a);
      SortedTail(le, b);
      SortedUnique(le, a[1..], b[1..]);
      assert a == [a[0]] + a[1..] && b == [b[0]] + b[1..];
    }
  }

  /** Under a total order, two lists sort alike exactly when one is a rearrangement of the other. */
  lemma SortCanonical<T(!new)>(le: (T, T) -> bool, a: seq<T>, b: seq<T>)
    requires TotalOrder(le)
    ensures Sort(le, a) == Sort(le, b) <==> multiset(a) == multiset(b)
  {
    SortMultiset(le, a);
    SortMultiset(le, b);
    SortSorted(le, a);
    SortSorted(le, b);
    if multiset(a) == multiset(b) {
      SortedUnique(le, Sort(le, a), Sort(le, b));
    }
  }

  /** A list that is already sorted is left as it is. */
  lemma {:induction false} SortOfSorted<T(!new)>(le: (T, T) -> bool, s: seq<T>)
    requires Sorted(le, s)
    ensures Sort(le, s) == s
  {
    if s != [] {
      SortOfSorted(le, s[1..]);
    }
  }

  // ---------------------------------------------------------------- integer keys

  function ByKey<T>(key: T -> int): (T, T) -> bool { (a, b) => key(a) <= key(b) }

  /** `sorted(s, key=key)` */
  function SortBy<T>(key: T -> int, s: seq<T>): seq<T> { Sort(ByKey(key), s) }

  predicate DistinctKeys<T>(key: T -> int, s: seq<T>) {
    forall i, j :: 0 <= i < j < |s| ==> key(s[i]) != key(s[j])
  }

  predicate StrictlyBy<T>(key: T -> int, s: seq<T>) {
    forall i, j :: 0 <= i < j < |s| ==> key(s[i]) < key(s[j])
  }

  lemma {:induction false} InsertStrict<T>(key: T -> int, x: T, s: seq<T>)
    requires StrictlyBy(key, s) && forall y <- s :: key(y) != key(x)
    ensures StrictlyBy(key, Insert(ByKey(key), x, s))
  {
    if s != [] && key(s[0]) < key(x) {
      InsertStrict(key, x, s[1..]);
      InsertMultiset(ByKey(key), x, s[1..]);
      var r := Insert(ByKey(key), x, s[1..]);
      forall y | y in r ensures key(s[0]) < key(y) {
        assert y in multiset(r);
        assert y == x || y in s[1..];
      }
    }
  }

  /** Sorting a list with distinct keys yields strictly increasing keys. */
  lemma {:induction false} SortStrict<T>(key: T -> int, s: seq<T>)
    requires DistinctKeys(key, s)
    ensures StrictlyBy(key, SortBy(key, s))
  {
    if s != [] {
      SortStrict(key, s[1..]);
      forall y | y in SortBy(key, s[1..]) ensures key(y) != key(s[0]) {
        SortMember(ByKey(key), s[1..], y);
      }
      InsertStrict(key, s[0], SortBy(key, s[1..]));
    }
  }
}
