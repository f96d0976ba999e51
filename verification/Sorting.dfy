/**
 Sorting by contract: one stable sort that stands for LINQ's `OrderBy` and is one of the
 results `std::sort` may produce.
 */
module Sorting {

  ghost predicate TotalPreorder<T(!new)>(leq: (T, T) -> bool) {
    && (forall x, y :: leq(x, y) || leq(y, x))
    && (forall x, y, z :: leq(x, y) && leq(y, z) ==> leq(x, z))
  }

  ghost predicate Sorted<T>(s: seq<T>, leq: (T, T) -> bool) {
    forall i, j :: 0 <= i < j < |s| ==> leq(s[i], s[j])
  }

  /** Puts `x` before the first element that it does not exceed. */
  function Insert<T>(x: T, s: seq<T>, leq: (T, T) -> bool): (r: seq<T>)
    ensures |r| == |s| + 1
  {
    if s == [] || leq(x, s[0]) then [x] + s else [s[0]] + Insert(x, s[1..], leq)
  }

  function Sort<T>(s: seq<T>, leq: (T, T) -> bool): (r: seq<T>)
    ensures |r| == |s|
  {
    if s == [] then [] else Insert(s[0], Sort(s[1..], leq), leq)
  }

  /** The elements of `s` that are equivalent to `x`, in order. */
  function Class<T>(s: seq<T>, x: T, leq: (T, T) -> bool): seq<T> {
    if s == [] then []
    else (if leq(x, s[0]) && leq(s[0], x) then [s[0]] else []) + Class(s[1..], x, leq)
  }

  lemma {:induction false} InsertMultiset<T>(x: T, s: seq<T>, leq: (T, T) -> bool)
    ensures multiset(Insert(x, s, leq)) == multiset{x} + multiset(s)
  {
    if s != [] && !leq(x, s[0]) {
      InsertMultiset(x, s[1..], leq);
      assert s == [s[0]] + s[1..];
    }
  }

  lemma {:induction false} SortPermutes<T>(s: seq<T>, leq: (T, T) -> bool)
    ensures multiset(Sort(s, leq)) == multiset(s)
  {
    if s != [] {
      SortPermutes(s[1..], leq);
      InsertMultiset(s[0], Sort(s[1..], leq), leq);
      assert s == [s[0]] + s[1..];
    }
  }

  lemma {:induction false} InsertSorted<T(!new)>(x: T, s: seq<T>, leq: (T, T) -> bool)
    requires TotalPreorder(leq) && Sorted(s, leq)
    ensures Sorted(Insert(x, s, leq), leq)
  {
    if s != [] && !leq(x, s[0]) {
      var rest := Insert(x, s[1..], leq);
      InsertSorted(x, s[1..], leq);
      InsertMultiset(x, s[1..], leq);
      forall i | 0 <= i < |rest| ensures leq(s[0], rest[i]) {
        assert rest[i] in multiset(rest);
        assert rest[i] == x || rest[i] in s[1..];
      }
    }
  }

  lemma {:induction false} SortSorts<T(!new)>(s: seq<T>, leq: (T, T) -> bool)
    requires TotalPreorder(leq)
    ensures Sorted(Sort(s, leq), leq)
  {
    if s != [] {
      SortSorts(s[1..], leq);
      InsertSorted(s[0], Sort(s[1..], leq), leq);
    }
  }

  lemma {:induction false} InsertStable<T(!new)>(x: T, s: seq<T>, y: T, leq: (T, T) -> bool)
    requires TotalPreorder(leq)
    ensures Class(Insert(x, s, leq), y, leq) == Class([x] + s, y, leq)
  {
    assert ([x] + s)[1..] == s;
    if s != [] && !leq(x, s[0]) {
      InsertStable(x, s[1..], y, leq);
      assert ([x] + s[1..])[1..] == s[1..];
      assert ([s[0]] + Insert(x, s[1..], leq))[1..] == Insert(x, s[1..], leq);
    }
  }

  /** Equivalent elements keep their order. */
  lemma {:induction false} SortStable<T(!new)>(s: seq<T>, y: T, leq: (T, T) -> bool)
    requires TotalPreorder(leq)
    ensures Class(Sort(s, leq), y, leq) == Class(s, y, leq)
  {
    if s != [] {
      var rest := Sort(s[1..], leq);
      SortStable(s[1..], y, leq);
      InsertStable(s[0], rest, y, leq);
      assert ([s[0]] + rest)[1..] == rest;
    }
  }

  /** The same elements, as a set. */
  lemma SortMembers<T>(s: seq<T>, leq: (T, T) -> bool)
    ensures forall x :: x in Sort(s, leq) <==> x in s
  {
    SortPermutes(s, leq);
    forall x ensures x in Sort(s, leq) <==> x in s {
      assert x in multiset(Sort(s, leq)) <==> x in multiset(s);
    }
  }
}
