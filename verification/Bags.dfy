/** Comprehensions and sums over sequences, and what does not depend on the order of the rows. */
module Bags {

  /** `[x for x in xs if p(x)]`. */
  function Keep<T>(xs: seq<T>, p: T -> bool): seq<T> {
    if xs == [] then [] else (if p(xs[0]) then [xs[0]] else []) + Keep(xs[1..], p)
  }

  /** `[f(x) for x in xs]`. */
  function Each<T, U>(xs: seq<T>, f: T -> U): seq<U> {
    seq(|xs|, i requires 0 <= i < |xs| => f(xs[i]))
  }

  function Count<T>(xs: seq<T>, p: T -> bool): nat { |Keep(xs, p)| }

  function Sum(xs: seq<real>): real {
    if xs == [] then 0.0 else xs[0] + Sum(xs[1..])
  }

  /** Sum of `f` over the rows. */
  function Total<T>(xs: seq<T>, f: T -> real): real { Sum(Each(xs, f)) }

  lemma {:induction false} KeepSplit<T>(xs: seq<T>, ys: seq<T>, p: T -> bool)
    ensures Keep(xs + ys, p) == Keep(xs, p) + Keep(ys, p)
  {
    if xs == [] {
      assert xs + ys == ys;
    } else {
      KeepSplit(xs[1..], ys, p);
      var head, first, second := if p(xs[0]) then [xs[0]] else [], Keep(xs[1..], p), Keep(ys, p);
      assert (xs + ys)[0] == xs[0] && (xs + ys)[1..] == xs[1..] + ys;
      assert Keep(xs + ys, p) == head + (first + second);
      assert head + (first + second) == (head + first) + second;
    }
  }

  /** One more row of a loop. */
  lemma KeepNext<T>(xs: seq<T>, i: int, p: T -> bool)
    requires 0 <= i < |xs|
    ensures Keep(xs[..i + 1], p) == Keep(xs[..i], p) + if p(xs[i]) then [xs[i]] else []
  {
    assert xs[..i + 1] == xs[..i] + [xs[i]];
    assert [xs[i]][1..] == [];
    KeepSplit(xs[..i], [xs[i]], p);
  }

  lemma {:induction false} KeepAll<T>(xs: seq<T>, p: T -> bool)
    requires forall i :: 0 <= i < |xs| ==> p(xs[i])
    ensures Keep(xs, p) == xs
  {
    if xs != [] {
      KeepAll(xs[1..], p);
    }
  }

  lemma {:induction false} KeepMembers<T>(xs: seq<T>, p: T -> bool)
    ensures forall x :: x in Keep(xs, p) <==> x in xs && p(x)
    ensures |Keep(xs, p)| <= |xs|
  {
    if xs != [] {
      KeepMembers(xs[1..], p);
      assert xs == [xs[0]] + xs[1..];
    }
  }

  lemma {:induction false} CountPositive<T>(xs: seq<T>, p: T -> bool)
    ensures Count(xs, p) > 0 <==> exists x :: x in xs && p(x)
  {
    if xs != [] {
      CountPositive(xs[1..], p);
      assert xs == [xs[0]] + xs[1..];
      assert xs[0] in xs;
    }
  }

  lemma PermutedMembers<T>(xs: seq<T>, ys: seq<T>)
    requires multiset(xs) == multiset(ys)
    ensures forall x :: x in xs <==> x in ys
    ensures |xs| == |ys|
  {
    forall x ensures x in xs <==> x in ys {
      assert x in xs <==> x in multiset(xs);
      assert x in ys <==> x in multiset(ys);
    }
    assert |multiset(xs)| == |xs| && |multiset(ys)| == |ys|;
  }

  lemma {:induction false} CountTwo<T>(xs: seq<T>, p: T -> bool)
    ensures Count(xs, p) >= 2 <==> exists i, j :: 0 <= i < j < |xs| && p(xs[i]) && p(xs[j])
  {
    if xs != [] {
      var rest := xs[1..];
      CountTwo(rest, p);
      CountPositive(rest, p);
      if p(xs[0]) && Count(rest, p) > 0 {
        var x :| x in rest && p(x);
        var j :| 0 <= j < |rest| && rest[j] == x;
        assert p(xs[0]) && p(xs[j + 1]);
      }
      if Count(rest, p) >= 2 {
        var i, j :| 0 <= i < j < |rest| && p(rest[i]) && p(rest[j]);
        assert p(xs[i + 1]) && p(xs[j + 1]);
      }
      if i, j :| 0 <= i < j < |xs| && p(xs[i]) && p(xs[j]) {
        assert rest[j - 1] == xs[j] && rest[j - 1] in rest;
        assert i > 0 ==> rest[i - 1] == xs[i];
      }
    }
  }

  /** The place in `ys` of the first row of `xs`, and what is left without it. */
  lemma Take<T>(xs: seq<T>, ys: seq<T>) returns (i: int)
    requires xs != [] && multiset(xs) == multiset(ys)
    ensures 0 <= i < |ys| && ys[i] == xs[0]
    ensures xs == [xs[0]] + xs[1..]
    ensures ys == ys[..i] + ([xs[0]] + ys[i + 1..])
    ensures multiset(xs[1..]) == multiset(ys[..i] + ys[i + 1..])
  {
    PermutedMembers(xs, ys);
    assert xs[0] in ys;
    i :| 0 <= i < |ys| && ys[i] == xs[0];
    assert xs == [xs[0]] + xs[1..];
    assert ys == ys[..i] + ([ys[i]] + ys[i + 1..]);
    WithoutOne(ys[..i], ys[i], ys[i + 1..]);
    WithoutOne([], xs[0], xs[1..]);
    assert [] + xs[1..] == xs[1..] && [] + ([xs[0]] + xs[1..]) == xs;
  }

  lemma WithoutOne<T>(before: seq<T>, x: T, after: seq<T>)
    ensures multiset(before + after) == multiset(before + ([x] + after)) - multiset{x}
  {
    assert multiset(before + ([x] + after)) == multiset(before) + multiset{x} + multiset(after);
  }

  lemma {:induction false} KeepPermuted<T>(xs: seq<T>, ys: seq<T>, p: T -> bool)
    requires multiset(xs) == multiset(ys)
    ensures multiset(Keep(xs, p)) == multiset(Keep(ys, p))
    ensures Count(xs, p) == Count(ys, p)
    decreases |xs|
  {
    PermutedMembers(xs, ys);
    if xs != [] {
      var i := Take(xs, ys);
      KeepPermuted(xs[1..], ys[..i] + ys[i + 1..], p);
      KeepSplit([xs[0]], xs[1..], p);
      KeepSplit(ys[..i], [xs[0]] + ys[i + 1..], p);
      KeepSplit([xs[0]], ys[i + 1..], p);
      KeepSplit(ys[..i], ys[i + 1..], p);
    }
    assert |multiset(Keep(xs, p))| == Count(xs, p) && |multiset(Keep(ys, p))| == Count(ys, p);
  }

  lemma {:induction false} SumSplit(xs: seq<real>, ys: seq<real>)
    ensures Sum(xs + ys) == Sum(xs) + Sum(ys)
  {
    if xs == [] {
      assert xs + ys == ys;
    } else {
      assert (xs + ys)[1..] == xs[1..] + ys;
      SumSplit(xs[1..], ys);
    }
  }

  lemma TotalSplit<T>(xs: seq<T>, ys: seq<T>, f: T -> real)
    ensures Total(xs + ys, f) == Total(xs, f) + Total(ys, f)
  {
    assert Each(xs + ys, f) == Each(xs, f) + Each(ys, f);
    SumSplit(Each(xs, f), Each(ys, f));
  }

  lemma TotalOne<T>(x: T, f: T -> real)
    ensures Total([x], f) == f(x)
  {
    assert Each([x], f) == [f(x)];
    assert [f(x)][1..] == [];
    assert Sum([f(x)]) == f(x) + Sum([]);
  }

  /** Addition over exact reals does not see the order. */
  lemma {:induction false} TotalPermuted<T>(xs: seq<T>, ys: seq<T>, f: T -> real)
    requires multiset(xs) == multiset(ys)
    ensures Total(xs, f) == Total(ys, f)
    decreases |xs|
  {
    PermutedMembers(xs, ys);
    if xs == [] {
      assert ys == [];
    } else {
      var i := Take(xs, ys);
      TotalPermuted(xs[1..], ys[..i] + ys[i + 1..], f);
      TotalSplit([xs[0]], xs[1..], f);
      TotalSplit(ys[..i], [xs[0]] + ys[i + 1..], f);
      TotalSplit([xs[0]], ys[i + 1..], f);
      TotalSplit(ys[..i], ys[i + 1..], f);
    }
  }

  lemma {:induction false} TotalWithin<T>(xs: seq<T>, f: T -> real, lo: real, hi: real, least: real, most: real)
    requires forall x :: x in xs ==> lo <= f(x) <= hi
    requires least == lo * |xs| as real && most == hi * |xs| as real
    ensures least <= Total(xs, f) <= most
  {
    if xs != [] {
      var rest := xs[1..];
      assert xs == [xs[0]] + rest;
      assert |xs| as real == |rest| as real + 1.0;
      TotalWithin(rest, f, lo, hi, lo * |rest| as real, hi * |rest| as real);
      TotalSplit([xs[0]], rest, f);
      TotalOne(xs[0], f);
      assert xs[0] in xs;
    }
  }

  function Prefixed(xs: set<string>, prefix: string): set<string> {
    set x | x in xs :: prefix + x
  }

  /** A set of strings behind a common prefix has as many elements as without it. */
  lemma {:induction false} PrefixedSize(xs: set<string>, prefix: string)
    ensures |Prefixed(xs, prefix)| == |xs|
  {
    if xs == {} {
      assert Prefixed(xs, prefix) == {};
    } else {
      var x :| x in xs;
      PrefixedSize(xs - {x}, prefix);
      forall z | z in xs && prefix + z == prefix + x ensures z == x {
        assert z == (prefix + z)[|prefix|..] && x == (prefix + x)[|prefix|..];
      }
      assert prefix + x !in Prefixed(xs - {x}, prefix);
      assert Prefixed(xs, prefix) == Prefixed(xs - {x}, prefix) + {prefix + x};
    }
  }
}
