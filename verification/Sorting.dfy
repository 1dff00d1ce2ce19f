/** Stable sorting by a comparison, as the built-in sort does it. */
module Sorting {
  function InsertBy<T>(x: T, sorted: seq<T>, before: (T, T) -> bool): seq<T> {
    if sorted == [] || !before(sorted[0], x) then [x] + sorted else [sorted[0]] + InsertBy(x, sorted[1..], before)
  }

  /** Stable: elements are inserted from the right, each before those that are not smaller. */
  function SortBy<T>(values: seq<T>, before: (T, T) -> bool): seq<T> {
    if values == [] then [] else InsertBy(values[0], SortBy(values[1..], before), before)
  }

  /** No element stands after a greater one. */
  predicate OrderedBy<T>(values: seq<T>, before: (T, T) -> bool) {
    forall i, j :: 0 <= i < j < |values| ==> !before(values[j], values[i])
  }

  ghost predicate StrictOrder<T(!new)>(before: (T, T) -> bool) {
    && (forall x, y :: before(x, y) ==> !before(y, x))
    && (forall x, y, z :: !before(x, y) && !before(y, z) ==> !before(x, z))
  }

  lemma {:induction false} InsertOrdered<T(!new)>(x: T, sorted: seq<T>, before: (T, T) -> bool)
    requires StrictOrder(before) && OrderedBy(sorted, before)
    ensures OrderedBy(InsertBy(x, sorted, before), before)
    ensures multiset(InsertBy(x, sorted, before)) == multiset{x} + multiset(sorted)
  {
    if sorted == [] {
    } else if !before(sorted[0], x) {
      forall j | 0 <= j < |sorted| ensures !before(sorted[j], x) {
        assert j > 0 ==> !before(sorted[j], sorted[0]);
      }
    } else {
      InsertOrdered(x, sorted[1..], before);
      assert sorted == [sorted[0]] + sorted[1..];
      var rest := InsertBy(x, sorted[1..], before);
      forall j | 0 <= j < |rest| ensures !before(rest[j], sorted[0]) {
        assert rest[j] in multiset(rest);
        assert rest[j] == x || rest[j] in sorted[1..];
      }
    }
  }

  /** Sorting orders the elements and keeps them all. */
  lemma {:induction false} SortOrders<T(!new)>(values: seq<T>, before: (T, T) -> bool)
    requires StrictOrder(before)
    ensures OrderedBy(SortBy(values, before), before) && multiset(SortBy(values, before)) == multiset(values)
  {
    if values != [] {
      SortOrders(values[1..], before);
      InsertOrdered(values[0], SortBy(values[1..], before), before);
      assert values == [values[0]] + values[1..];
    }
  }

  lemma {:induction false} SortKeepsOrdered<T>(values: seq<T>, before: (T, T) -> bool)
    requires OrderedBy(values, before)
    ensures SortBy(values, before) == values
  {
    if values != [] {
      SortKeepsOrdered(values[1..], before);
      assert |values| > 1 ==> !before(values[1], values[0]);
      assert values == [values[0]] + values[1..];
    }
  }

  /** Elements that the order does not tell apart are the same. */
  ghost predicate TotalOrder<T(!new)>(before: (T, T) -> bool) {
    StrictOrder(before) && forall x, y :: !before(x, y) && !before(y, x) ==> x == y
  }

  lemma SameFirst<T(!new)>(a: seq<T>, b: seq<T>, before: (T, T) -> bool)
    requires TotalOrder(before) && OrderedBy(a, before) && OrderedBy(b, before)
    requires a != [] && multiset(a) == multiset(b)
    ensures b != [] && a[0] == b[0]
  {
    assert a[0] in multiset(b);
    var i :| 0 <= i < |b| && b[i] == a[0];
    assert b[0] in multiset(a);
    var j :| 0 <= j < |a| && a[j] == b[0];
    assert i == 0 || !before(b[i], b[0]);
    assert j == 0 || !before(a[j], a[0]);
  }

  /** Under a total order, sorting only depends on which elements there are. */
  lemma {:induction false} OrderedUnique<T(!new)>(a: seq<T>, b: seq<T>, before: (T, T) -> bool)
    requires TotalOrder(before) && OrderedBy(a, before) && OrderedBy(b, before) && multiset(a) == multiset(b)
    ensures a == b
  {
    if a == [] {
      assert |multiset(b)| == 0;
    } else {
      SameFirst(a, b, before);
      assert a == [a[0]] + a[1..] && b == [b[0]] + b[1..];
      assert multiset(a[1..]) == multiset(a) - multiset{a[0]} && multiset(b[1..]) == multiset(b) - multiset{b[0]};
      OrderedUnique(a[1..], b[1..], before);
    }
  }

  lemma SortForgetsOrder<T(!new)>(a: seq<T>, b: seq<T>, before: (T, T) -> bool)
    requires TotalOrder(before) && multiset(a) == multiset(b)
    ensures SortBy(a, before) == SortBy(b, before)
  {
    SortOrders(a, before);
    SortOrders(b, before);
    OrderedUnique(SortBy(a, before), SortBy(b, before), before);
  }

  function Mapped<T, U>(f: T -> U, values: seq<T>): seq<U> {
    seq(|values|, k requires 0 <= k < |values| => f(values[k]))
  }

  lemma Without<T>(values: seq<T>, i: nat)
    requires i < |values|
    ensures multiset(values) == multiset{values[i]} + multiset(values[..i] + values[i + 1..])
  {
    assert values == values[..i] + [values[i]] + values[i + 1..];
  }

  lemma RemoveFirst<T>(a: seq<T>, b: seq<T>) returns (i: nat)
    requires a != [] && multiset(a) == multiset(b)
    ensures i < |b| && b[i] == a[0] && multiset(a[1..]) == multiset(b[..i] + b[i + 1..])
  {
    assert a[0] in multiset(b);
    i :| 0 <= i < |b| && b[i] == a[0];
    Without(b, i);
    assert a == [a[0]] + a[1..];
    assert multiset(a[1..]) == multiset(a) - multiset{a[0]}
      && multiset(b[..i] + b[i + 1..]) == multiset(b) - multiset{b[i]};
  }

  lemma MappedWithout<T, U>(f: T -> U, values: seq<T>, i: nat)
    requires i < |values|
    ensures multiset(Mapped(f, values)) == multiset{f(values[i])} + multiset(Mapped(f, values[..i] + values[i + 1..]))
  {
    var mapped := Mapped(f, values);
    Without(mapped, i);
    assert mapped[..i] + mapped[i + 1..] == Mapped(f, values[..i] + values[i + 1..]);
  }

  /** Mapping rearranged elements gives rearranged results. */
  lemma {:induction false} MappedPermutes<T, U>(f: T -> U, a: seq<T>, b: seq<T>)
    requires multiset(a) == multiset(b)
    ensures multiset(Mapped(f, a)) == multiset(Mapped(f, b))
  {
    if a == [] {
      assert |multiset(b)| == 0;
    } else {
      var i := RemoveFirst(a, b);
      MappedPermutes(f, a[1..], b[..i] + b[i + 1..]);
      MappedWithout(f, b, i);
      MappedWithout(f, a, 0);
      assert a[..0] + a[0 + 1..] == a[1..];
    }
  }

  function Sum<T>(f: T -> int, values: seq<T>): int {
    if values == [] then 0 else f(values[0]) + Sum(f, values[1..])
  }

  lemma {:induction false} SumWithout<T>(f: T -> int, values: seq<T>, i: nat)
    requires i < |values|
    ensures Sum(f, values) == f(values[i]) + Sum(f, values[..i] + values[i + 1..])
  {
    var rest := values[..i] + values[i + 1..];
    if i == 0 {
      assert rest == values[1..];
    } else {
      SumWithout(f, values[1..], i - 1);
      assert rest[1..] == values[1..][..i - 1] + values[1..][i..];
    }
  }

  lemma {:induction false} SumPermutes<T>(f: T -> int, a: seq<T>, b: seq<T>)
    requires multiset(a) == multiset(b)
    ensures Sum(f, a) == Sum(f, b)
  {
    if a == [] {
      assert |multiset(b)| == 0;
    } else {
      var i := RemoveFirst(a, b);
      SumPermutes(f, a[1..], b[..i] + b[i + 1..]);
      SumWithout(f, b, i);
    }
  }
}
