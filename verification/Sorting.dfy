/** Stable insertion sort by a comparison, as Python's `sorted` and `list.sort` are used
    throughout the modelled files, with the facts the other modules need: the result is
    ordered, holds the same elements, and does not depend on the order of the input when
    no two elements compare equal. */
module Sorting {

  ghost predicate TotalPreorder<T(!new)>(le: (T, T) -> bool) {
    && (forall x, y :: le(x, y) || le(y, x))
    && (forall x, y, z :: le(x, y) && le(y, z) ==> le(x, z))
  }

  ghost predicate Ordered<T>(s: seq<T>, le: (T, T) -> bool) {
    forall i, j :: 0 <= i < j < |s| ==> le(s[i], s[j])
  }

  /** No two different elements of `s` compare equal. */
  ghost predicate DistinctUnder<T>(s: seq<T>, le: (T, T) -> bool) {
    forall x, y :: x in s && y in s && le(x, y) && le(y, x) ==> x == y
  }

  function Insert<T>(x: T, s: seq<T>, le: (T, T) -> bool): (r: seq<T>)
    ensures |r| == |s| + 1
    ensures multiset(r) == multiset(s) + multiset{x}
  {
    if s == [] then [x]
    else if le(x, s[0]) then [x] + s
    else
      var r := [s[0]] + Insert(x, s[1..], le);
      assert s == [s[0]] + s[1..];
      r
  }

  function Sort<T>(s: seq<T>, le: (T, T) -> bool): (r: seq<T>)
    ensures |r| == |s|
    ensures multiset(r) == multiset(s)
  {
    if s == [] then []
    else
      assert s == [s[0]] + s[1..];
      Insert(s[0], Sort(s[1..], le), le)
  }

  lemma SameMembers<T>(s: seq<T>, t: seq<T>)
    requires multiset(s) == multiset(t)
    ensures forall x :: x in s <==> x in t
    ensures |s| == |t|
  {
    assert forall x :: x in s <==> x in multiset(s);
    assert forall x :: x in t <==> x in multiset(t);
    assert |multiset(s)| == |s| && |multiset(t)| == |t|;
  }

  lemma SortMembers<T>(s: seq<T>, le: (T, T) -> bool)
    ensures forall x :: x in Sort(s, le) <==> x in s
  {
    SameMembers(s, Sort(s, le));
  }

  lemma {:induction false} InsertOrdered<T(!new)>(x: T, s: seq<T>, le: (T, T) -> bool)
    requires TotalPreorder(le) && Ordered(s, le)
    ensures Ordered(Insert(x, s, le), le)
  {
    if s != [] && !le(x, s[0]) {
      InsertOrdered(x, s[1..], le);
      var rest := Insert(x, s[1..], le);
      assert s == [s[0]] + s[1..];
      assert forall y :: y in rest <==> y in multiset(rest);
      forall j | 0 <= j < |rest| ensures le(s[0], rest[j]) {
        assert rest[j] in multiset(rest);
        assert rest[j] == x || rest[j] in s[1..];
      }
    } else if s != [] {
      forall j | 0 <= j < |s| ensures le(x, s[j]) {
        assert j == 0 || le(s[0], s[j]);
      }
    }
  }

  lemma {:induction false} SortOrdered<T(!new)>(s: seq<T>, le: (T, T) -> bool)
    requires TotalPreorder(le)
    ensures Ordered(Sort(s, le), le)
  {
    if s != [] {
      SortOrdered(s[1..], le);
      InsertOrdered(s[0], Sort(s[1..], le), le);
    }
  }

  lemma HeadIsLeast<T(!new)>(s: seq<T>, x: T, le: (T, T) -> bool)
    requires TotalPreorder(le) && Ordered(s, le) && x in s
    ensures le(s[0], x)
  {
    assert le(s[0], s[0]);
  }

  lemma TailMultiset<T>(s: seq<T>)
    requires s != []
    ensures multiset(s[1..]) == multiset(s) - multiset{s[0]}
  {
    assert s == [s[0]] + s[1..];
  }

  /** Two ordered sequences with the same elements are equal when no two elements tie. */
  lemma {:induction false} OrderedUnique<T(!new)>(s: seq<T>, t: seq<T>, le: (T, T) -> bool)
    requires TotalPreorder(le) && Ordered(s, le) && Ordered(t, le)
    requires multiset(s) == multiset(t) && DistinctUnder(s, le)
    ensures s == t
  {
    SameMembers(s, t);
    if s != [] {
      HeadIsLeast(s, t[0], le);
      HeadIsLeast(t, s[0], le);
      assert s[0] == t[0];
      TailMultiset(s);
      TailMultiset(t);
      OrderedUnique(s[1..], t[1..], le);
      SplitHead(s);
      SplitHead(t);
    }
  }

  lemma SplitHead<T>(s: seq<T>)
    requires s != []
    ensures s == [s[0]] + s[1..]
  {}

  /** Sorting forgets the order of its input when no two elements tie. */
  lemma SortCanonical<T(!new)>(s: seq<T>, t: seq<T>, le: (T, T) -> bool)
    requires TotalPreorder(le) && multiset(s) == multiset(t) && DistinctUnder(s, le)
    ensures Sort(s, le) == Sort(t, le)
  {
    SortOrdered(s, le);
    SortOrdered(t, le);
    SortMembers(s, le);
    OrderedUnique(Sort(s, le), Sort(t, le), le);
  }

  /** An ordered sequence is left alone. */
  lemma {:induction false} SortOfOrdered<T>(s: seq<T>, le: (T, T) -> bool)
    requires Ordered(s, le)
    ensures Sort(s, le) == s
  {
    if s != [] {
      SortOfOrdered(s[1..], le);
      assert s == [s[0]] + s[1..];
      if |s| > 1 { assert le(s[0], s[1]); }
    }
  }

  ghost predicate Distinct<T>(s: seq<T>) {
    forall j, k :: 0 <= j < k < |s| ==> s[j] != s[k]
  }

  lemma DistinctSnoc<T>(s: seq<T>, x: T)
    requires Distinct(s) && x !in s
    ensures Distinct(s + [x])
  {}

  /** No two elements have the same key. */
  ghost predicate DistinctBy<T, K>(s: seq<T>, key: T -> K) {
    forall j, k :: 0 <= j < k < |s| ==> key(s[j]) != key(s[k])
  }

  lemma {:induction false} InsertDistinctBy<T, K>(x: T, s: seq<T>, le: (T, T) -> bool, key: T -> K)
    requires DistinctBy(s, key) && forall y :: y in s ==> key(y) != key(x)
    ensures DistinctBy(Insert(x, s, le), key)
  {
    if s != [] && !le(x, s[0]) {
      InsertDistinctBy(x, s[1..], le, key);
      var rest := Insert(x, s[1..], le);
      forall k | 0 <= k < |rest| ensures key(rest[k]) != key(s[0]) {
        assert rest[k] in multiset(rest);
        assert rest[k] == x || rest[k] in s[1..];
      }
    }
  }

  /** Sorting keeps keys distinct. */
  lemma {:induction false} SortDistinctBy<T, K>(s: seq<T>, le: (T, T) -> bool, key: T -> K)
    requires DistinctBy(s, key)
    ensures DistinctBy(Sort(s, le), key)
  {
    if s != [] {
      SortDistinctBy(s[1..], le, key);
      SortMembers(s[1..], le);
      forall y | y in s[1..] ensures key(y) != key(s[0]) {
        var k :| 0 <= k < |s| - 1 && s[1..][k] == y;
        assert s[k + 1] == y;
      }
      forall y | y in Sort(s[1..], le) ensures y in s[1..] {
        assert y in multiset(Sort(s[1..], le));
      }
      InsertDistinctBy(s[0], Sort(s[1..], le), le, key);
    }
  }

  lemma SortDistinct<T>(s: seq<T>, le: (T, T) -> bool)
    requires Distinct(s)
    ensures Distinct(Sort(s, le))
  {
    SortDistinctBy(s, le, (x: T) => x);
  }

  // ---- Mapping that keeps the order ----

  function Map<T, U>(f: T -> U, s: seq<T>): (r: seq<U>)
    ensures |r| == |s| && forall i :: 0 <= i < |s| ==> r[i] == f(s[i])
  {
    if s == [] then [] else [f(s[0])] + Map(f, s[1..])
  }

  lemma MapCons<T, U>(f: T -> U, x: T, s: seq<T>)
    ensures Map(f, [x] + s) == [f(x)] + Map(f, s)
  {
    assert ([x] + s)[1..] == s;
  }

  ghost predicate KeepsOrder<T(!new), U>(f: T -> U, le: (T, T) -> bool, lu: (U, U) -> bool) {
    forall a, b :: lu(f(a), f(b)) == le(a, b)
  }

  lemma {:induction false} InsertMap<T(!new), U>(f: T -> U, x: T, s: seq<T>, le: (T, T) -> bool, lu: (U, U) -> bool)
    requires KeepsOrder(f, le, lu)
    ensures Insert(f(x), Map(f, s), lu) == Map(f, Insert(x, s, le))
  {
    if s == [] {
      MapCons(f, x, []);
    } else if le(x, s[0]) {
      MapCons(f, x, s);
    } else {
      InsertMap(f, x, s[1..], le, lu);
      assert Map(f, s)[1..] == Map(f, s[1..]);
      MapCons(f, s[0], Insert(x, s[1..], le));
    }
  }

  /** Sorting commutes with a map that keeps the order. */
  lemma {:induction false} SortMap<T(!new), U>(f: T -> U, s: seq<T>, le: (T, T) -> bool, lu: (U, U) -> bool)
    requires KeepsOrder(f, le, lu)
    ensures Sort(Map(f, s), lu) == Map(f, Sort(s, le))
  {
    if s != [] {
      SortMap(f, s[1..], le, lu);
      assert Map(f, s)[1..] == Map(f, s[1..]);
      InsertMap(f, s[0], Sort(s[1..], le), le, lu);
    }
  }
}
