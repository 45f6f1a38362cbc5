/** Sorting by an order: by any that ranks, and by a total one, where the answer
    depends on nothing but what is sorted. */
module Sorting {
  import opened Orders

  /** The order ranks things, perhaps several alike. */
  ghost predicate Ranks<T(!new)>(cmp: (T, T) -> Order) {
    && (forall x, y :: cmp(x, y) == Greater ==> cmp(y, x) != Greater)
    && (forall x, y, z :: cmp(x, y) != Greater && cmp(y, z) != Greater ==> cmp(x, z) != Greater)
  }

  lemma TotalRanks<T(!new)>(cmp: (T, T) -> Order)
    requires IsTotal(cmp)
    ensures Ranks(cmp)
  {
  }

  predicate InOrder<T>(cmp: (T, T) -> Order, xs: seq<T>) {
    forall i, j :: 0 <= i < j < |xs| ==> cmp(xs[i], xs[j]) != Greater
  }

  function Inserted<T>(cmp: (T, T) -> Order, x: T, xs: seq<T>): seq<T> {
    if xs == [] then [x]
    else if cmp(x, xs[0]) != Greater then [x] + xs
    else [xs[0]] + Inserted(cmp, x, xs[1..])
  }

  function Sorted<T>(cmp: (T, T) -> Order, xs: seq<T>): seq<T> {
    if xs == [] then [] else Inserted(cmp, xs[0], Sorted(cmp, xs[1..]))
  }

  lemma {:induction false} InsertedHas<T(!new)>(cmp: (T, T) -> Order, x: T, xs: seq<T>)
    ensures multiset(Inserted(cmp, x, xs)) == multiset(xs) + multiset{x}
  {
    if xs != [] {
      InsertedHas(cmp, x, xs[1..]);
      assert xs == [xs[0]] + xs[1..];
    }
  }

  lemma {:induction false} SortedHas<T(!new)>(cmp: (T, T) -> Order, xs: seq<T>)
    ensures multiset(Sorted(cmp, xs)) == multiset(xs)
  {
    if xs != [] {
      SortedHas(cmp, xs[1..]);
      InsertedHas(cmp, xs[0], Sorted(cmp, xs[1..]));
      assert xs == [xs[0]] + xs[1..];
    }
  }

  lemma Ahead<T(!new)>(cmp: (T, T) -> Order, x: T, xs: seq<T>)
    requires InOrder(cmp, xs)
    requires forall i :: 0 <= i < |xs| ==> cmp(x, xs[i]) != Greater
    ensures InOrder(cmp, [x] + xs)
  {
  }

  lemma {:induction false} InsertedInOrder<T(!new)>(cmp: (T, T) -> Order, x: T, xs: seq<T>)
    requires Ranks(cmp) && InOrder(cmp, xs)
    ensures InOrder(cmp, Inserted(cmp, x, xs))
  {
    if xs != [] {
      if cmp(x, xs[0]) != Greater {
        forall i | 0 <= i < |xs|
          ensures cmp(x, xs[i]) != Greater
        {
          if i > 0 {
            assert cmp(xs[0], xs[i]) != Greater;
          }
        }
        Ahead(cmp, x, xs);
      } else {
        InsertedInOrder(cmp, x, xs[1..]);
        InsertedHas(cmp, x, xs[1..]);
        var rest := Inserted(cmp, x, xs[1..]);
        forall i | 0 <= i < |rest|
          ensures cmp(xs[0], rest[i]) != Greater
        {
          assert rest[i] in multiset(rest);
          assert rest[i] == x || rest[i] in xs[1..];
        }
        Ahead(cmp, xs[0], rest);
      }
    }
  }

  lemma {:induction false} SortedInOrder<T(!new)>(cmp: (T, T) -> Order, xs: seq<T>)
    requires Ranks(cmp)
    ensures InOrder(cmp, Sorted(cmp, xs))
  {
    if xs != [] {
      SortedInOrder(cmp, xs[1..]);
      InsertedInOrder(cmp, xs[0], Sorted(cmp, xs[1..]));
    }
  }

  lemma AsMany<T(!new)>(a: seq<T>, b: seq<T>)
    requires multiset(a) == multiset(b)
    ensures |a| == |b|
    ensures forall x :: x in a <==> x in b
  {
    assert |multiset(a)| == |a| && |multiset(b)| == |b|;
    assert forall x :: x in a <==> x in multiset(a);
    assert forall x :: x in b <==> x in multiset(b);
  }

  lemma RestHas<T(!new)>(a: seq<T>)
    requires a != []
    ensures multiset(a[1..]) == multiset(a) - multiset{a[0]}
  {
    assert a == [a[0]] + a[1..];
  }

  lemma FirstsAgree<T(!new)>(cmp: (T, T) -> Order, a: seq<T>, b: seq<T>)
    requires IsTotal(cmp) && InOrder(cmp, a) && InOrder(cmp, b) && a != [] && b != []
    requires a[0] in b && b[0] in a
    ensures a[0] == b[0]
  {
    assert cmp(a[0], b[0]) != Greater && cmp(b[0], a[0]) != Greater;
  }

  lemma SortedMembers<T(!new)>(cmp: (T, T) -> Order, xs: seq<T>)
    ensures forall x :: x in Sorted(cmp, xs) <==> x in xs
  {
    SortedHas(cmp, xs);
    AsMany(Sorted(cmp, xs), xs);
  }

  /** Two lists in order of the same things are the same list. */
  lemma {:induction false} InOrderOnce<T(!new)>(cmp: (T, T) -> Order, a: seq<T>, b: seq<T>)
    requires IsTotal(cmp) && InOrder(cmp, a) && InOrder(cmp, b) && multiset(a) == multiset(b)
    ensures a == b
  {
    AsMany(a, b);
    if a != [] {
      FirstsAgree(cmp, a, b);
      RestHas(a);
      RestHas(b);
      InOrderOnce(cmp, a[1..], b[1..]);
      assert a == [a[0]] + a[1..] && b == [b[0]] + b[1..];
    }
  }

  /** So sorting forgets the order and nothing else. */
  lemma SortedSameIff<T(!new)>(cmp: (T, T) -> Order, a: seq<T>, b: seq<T>)
    requires IsTotal(cmp)
    ensures Sorted(cmp, a) == Sorted(cmp, b) <==> multiset(a) == multiset(b)
  {
    SortedHas(cmp, a);
    SortedHas(cmp, b);
    if multiset(a) == multiset(b) {
      TotalRanks(cmp);
      SortedInOrder(cmp, a);
      SortedInOrder(cmp, b);
      InOrderOnce(cmp, Sorted(cmp, a), Sorted(cmp, b));
    }
  }
}
