/** Python's built-in `sorted`: a stable sort, here by insertion. */
module Sorting {

  ghost predicate TotalPreorder<T(!new)>(le: (T, T) -> bool) {
    && (forall x, y :: le(x, y) || le(y, x))
    && (forall x, y, z :: le(x, y) && le(y, z) ==> le(x, z))
  }

  ghost predicate Ascending<T>(xs: seq<T>, le: (T, T) -> bool) {
    forall i, j :: 0 <= i < j < |xs| ==> le(xs[i], xs[j])
  }

  /** `x` goes before the first element it does not exceed, so equal elements keep their order. */
  function Insert<T>(x: T, xs: seq<T>, le: (T, T) -> bool): seq<T> {
    if xs == [] || le(x, xs[0]) then [x] + xs else [xs[0]] + Insert(x, xs[1..], le)
  }

  function Sorted<T>(xs: seq<T>, le: (T, T) -> bool): seq<T> {
    if xs == [] then [] else Insert(xs[0], Sorted(xs[1..], le), le)
  }

  lemma {:induction false} InsertKeepsElements<T>(x: T, xs: seq<T>, le: (T, T) -> bool)
    ensures multiset(Insert(x, xs, le)) == multiset{x} + multiset(xs)
  {
    if xs != [] && !le(x, xs[0]) {
      InsertKeepsElements(x, xs[1..], le);
      assert xs == [xs[0]] + xs[1..];
    }
  }

  lemma {:induction false} InsertKeepsOrder<T(!new)>(x: T, xs: seq<T>, le: (T, T) -> bool)
    requires TotalPreorder(le) && Ascending(xs, le)
    ensures Ascending(Insert(x, xs, le), le)
  {
    if xs != [] && !le(x, xs[0]) {
      var rest := Insert(x, xs[1..], le);
      InsertKeepsOrder(x, xs[1..], le);
      InsertKeepsElements(x, xs[1..], le);
      forall j | 0 <= j < |rest| ensures le(xs[0], rest[j]) {
        assert rest[j] in multiset(rest);
        assert rest[j] == x || rest[j] in xs[1..];
      }
    } else if xs != [] {
      forall j | 0 <= j < |xs| ensures le(x, xs[j]) {
        assert j == 0 || le(xs[0], xs[j]);
      }
    }
  }

  lemma {:induction false} SortedIsPermutation<T>(xs: seq<T>, le: (T, T) -> bool)
    ensures multiset(Sorted(xs, le)) == multiset(xs)
    ensures |Sorted(xs, le)| == |xs|
    ensures forall x :: x in Sorted(xs, le) <==> x in xs
  {
    if xs != [] {
      SortedIsPermutation(xs[1..], le);
      InsertKeepsElements(xs[0], Sorted(xs[1..], le), le);
      assert xs == [xs[0]] + xs[1..];
    }
    assert |multiset(Sorted(xs, le))| == |multiset(xs)|;
    assert forall x :: x in Sorted(xs, le) <==> x in multiset(Sorted(xs, le));
  }

  lemma {:induction false} SortedIsAscending<T(!new)>(xs: seq<T>, le: (T, T) -> bool)
    requires TotalPreorder(le)
    ensures Ascending(Sorted(xs, le), le)
  {
    if xs != [] {
      SortedIsAscending(xs[1..], le);
      InsertKeepsOrder(xs[0], Sorted(xs[1..], le), le);
    }
  }

  ghost predicate Distinct<T>(xs: seq<T>) {
    forall i, j :: 0 <= i < j < |xs| ==> xs[i] != xs[j]
  }

  lemma {:induction false} InsertKeepsDistinct<T>(x: T, xs: seq<T>, le: (T, T) -> bool)
    requires Distinct(xs) && x !in xs
    ensures Distinct(Insert(x, xs, le))
  {
    if xs != [] && !le(x, xs[0]) {
      InsertKeepsDistinct(x, xs[1..], le);
      InsertKeepsElements(x, xs[1..], le);
      var rest := Insert(x, xs[1..], le);
      assert xs[0] !in xs[1..];
      forall j | 0 <= j < |rest| ensures rest[j] != xs[0] {
        assert rest[j] in multiset(rest);
      }
    }
  }

  lemma {:induction false} SortedIsDistinct<T>(xs: seq<T>, le: (T, T) -> bool)
    requires Distinct(xs)
    ensures Distinct(Sorted(xs, le))
  {
    if xs != [] {
      SortedIsDistinct(xs[1..], le);
      SortedIsPermutation(xs[1..], le);
      InsertKeepsDistinct(xs[0], Sorted(xs[1..], le), le);
    }
  }

  /** Two lists of the same elements, both strictly ascending for an order, are the same list. */
  lemma {:induction false} AscendingUnique<T(!new)>(xs: seq<T>, ys: seq<T>, lt: (T, T) -> bool)
    requires Ascending(xs, lt) && Ascending(ys, lt)
    requires forall x, y :: lt(x, y) ==> !lt(y, x)
    requires forall x :: x in xs <==> x in ys
    ensures xs == ys
  {
    assert ys != [] ==> ys[0] in ys;
    if xs != [] {
      assert xs[0] in ys && ys[0] in xs;
      assert xs[0] == ys[0];
      forall x ensures x in xs[1..] <==> x in ys[1..] {
        Tail(xs, lt, x);
        Tail(ys, lt, x);
      }
      AscendingUnique(xs[1..], ys[1..], lt);
      assert xs == [xs[0]] + xs[1..] && ys == [ys[0]] + ys[1..];
    }
  }

  lemma Tail<T(!new)>(xs: seq<T>, lt: (T, T) -> bool, x: T)
    requires xs != [] && Ascending(xs, lt)
    requires forall u, v :: lt(u, v) ==> !lt(v, u)
    ensures x in xs[1..] <==> x in xs && x != xs[0]
  {
    if x in xs[1..] {
      var j :| 0 <= j < |xs[1..]| && xs[1..][j] == x;
      assert lt(xs[0], xs[j + 1]);
    }
  }
}
