/** std::sort by a pair of numbers, compared lexicographically. */
module Sorting {
  predicate Before(a: (nat, nat), b: (nat, nat)) {
    a.0 < b.0 || (a.0 == b.0 && a.1 <= b.1)
  }

  function Place<T>(key: T -> (nat, nat), x: T, xs: seq<T>): seq<T> {
    if xs == [] || Before(key(x), key(xs[0])) then [x] + xs else [xs[0]] + Place(key, x, xs[1..])
  }

  function Sort<T>(key: T -> (nat, nat), xs: seq<T>): seq<T> {
    if xs == [] then [] else Place(key, xs[0], Sort(key, xs[1..]))
  }

  ghost predicate Sorted<T>(key: T -> (nat, nat), xs: seq<T>) {
    forall i, j :: 0 <= i < j < |xs| ==> Before(key(xs[i]), key(xs[j]))
  }

  lemma {:induction false} PlaceElements<T>(key: T -> (nat, nat), x: T, xs: seq<T>)
    ensures multiset(Place(key, x, xs)) == multiset(xs) + multiset{x}
  {
    if xs != [] && !Before(key(x), key(xs[0])) {
      PlaceElements(key, x, xs[1..]);
      assert xs == [xs[0]] + xs[1..];
    }
  }

  lemma {:induction false} PlaceSorted<T>(key: T -> (nat, nat), x: T, xs: seq<T>)
    requires Sorted(key, xs)
    ensures Sorted(key, Place(key, x, xs))
  {
    if xs != [] && !Before(key(x), key(xs[0])) {
      var rest := Place(key, x, xs[1..]);
      PlaceSorted(key, x, xs[1..]);
      PlaceElements(key, x, xs[1..]);
      forall j | 0 <= j < |rest| ensures Before(key(xs[0]), key(rest[j])) {
        assert rest[j] in multiset(rest);
        assert rest[j] == x || rest[j] in xs[1..];
      }
    }
  }

  /** The result is sorted and is a rearrangement of the input. */
  lemma {:induction false} SortCorrect<T>(key: T -> (nat, nat), xs: seq<T>)
    ensures Sorted(key, Sort(key, xs))
    ensures multiset(Sort(key, xs)) == multiset(xs)
    ensures |Sort(key, xs)| == |xs|
  {
    if xs != [] {
      SortCorrect(key, xs[1..]);
      PlaceSorted(key, xs[0], Sort(key, xs[1..]));
      PlaceElements(key, xs[0], Sort(key, xs[1..]));
      assert xs == [xs[0]] + xs[1..];
      assert |multiset(Sort(key, xs))| == |Sort(key, xs)|;
    }
  }

  lemma SortElements<T>(key: T -> (nat, nat), xs: seq<T>, x: T)
    ensures x in Sort(key, xs) <==> x in xs
  {
    SortCorrect(key, xs);
    assert x in Sort(key, xs) <==> x in multiset(Sort(key, xs));
  }

  /** The relation holds between any two elements at different positions, both ways. */
  ghost predicate Pairwise<T>(related: (T, T) -> bool, xs: seq<T>) {
    forall i, j :: 0 <= i < |xs| && 0 <= j < |xs| && i != j ==> related(xs[i], xs[j])
  }

  lemma {:induction false} PlacePairwise<T>(key: T -> (nat, nat), related: (T, T) -> bool, x: T, xs: seq<T>)
    requires Pairwise(related, xs) && forall y :: y in xs ==> related(x, y) && related(y, x)
    ensures Pairwise(related, Place(key, x, xs))
  {
    if xs != [] && !Before(key(x), key(xs[0])) {
      var rest := Place(key, x, xs[1..]);
      PlacePairwise(key, related, x, xs[1..]);
      PlaceElements(key, x, xs[1..]);
      forall j | 0 <= j < |rest| ensures related(xs[0], rest[j]) && related(rest[j], xs[0]) {
        assert rest[j] in multiset(rest);
        if rest[j] != x {
          var k :| 0 <= k < |xs[1..]| && xs[1..][k] == rest[j];
          assert xs[k + 1] == rest[j] && related(xs[0], xs[k + 1]);
        }
      }
    }
  }

  /** Sorting keeps a pairwise relation. */
  lemma {:induction false} SortPairwise<T>(key: T -> (nat, nat), related: (T, T) -> bool, xs: seq<T>)
    requires Pairwise(related, xs)
    ensures Pairwise(related, Sort(key, xs))
  {
    if xs != [] {
      SortPairwise(key, related, xs[1..]);
      forall y | y in Sort(key, xs[1..]) ensures related(xs[0], y) && related(y, xs[0]) {
        SortElements(key, xs[1..], y);
        var k :| 0 <= k < |xs[1..]| && xs[1..][k] == y;
        assert xs[k + 1] == y;
      }
      PlacePairwise(key, related, xs[0], Sort(key, xs[1..]));
    }
  }

  function SumBy<T>(weight: T -> nat, xs: seq<T>): nat {
    if xs == [] then 0 else weight(xs[0]) + SumBy(weight, xs[1..])
  }

  lemma {:induction false} PlaceSum<T>(key: T -> (nat, nat), weight: T -> nat, x: T, xs: seq<T>)
    ensures SumBy(weight, Place(key, x, xs)) == weight(x) + SumBy(weight, xs)
  {
    if xs != [] && !Before(key(x), key(xs[0])) {
      PlaceSum(key, weight, x, xs[1..]);
    }
  }

  /** Sorting keeps a sum over the elements. */
  lemma {:induction false} SortSum<T>(key: T -> (nat, nat), weight: T -> nat, xs: seq<T>)
    ensures SumBy(weight, Sort(key, xs)) == SumBy(weight, xs)
  {
    if xs != [] {
      SortSum(key, weight, xs[1..]);
      PlaceSum(key, weight, xs[0], Sort(key, xs[1..]));
    }
  }

  lemma {:induction false} SumByConcat<T>(weight: T -> nat, a: seq<T>, b: seq<T>)
    ensures SumBy(weight, a + b) == SumBy(weight, a) + SumBy(weight, b)
  {
    if a == [] {
      assert a + b == b;
    } else {
      assert (a + b)[1..] == a[1..] + b;
      SumByConcat(weight, a[1..], b);
    }
  }
}
