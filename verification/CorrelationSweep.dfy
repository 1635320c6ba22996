/** The pair loops of the correlation engine: walking an ordered list of items meets every
    unordered pair of different items once. */
module CorrelationSweep {
  import opened CorrelationModel
  import opened Sorting
  import opened Text

  predicate IdLe(a: Signals, b: Signals) { Le(a.id, b.id) }

  lemma IdLeIsTotalPreorder()
    ensures TotalPreorder(IdLe)
  {
    forall x: Signals, y: Signals ensures IdLe(x, y) || IdLe(y, x) {
      LeTotal(x.id, y.id);
    }
    forall x: Signals, y: Signals, z: Signals | IdLe(x, y) && IdLe(y, z) ensures IdLe(x, z) {
      LeTransitive(x.id, y.id, z.id);
    }
  }

  /** The items in the order of their identifiers. */
  function ById(signals: seq<Signals>): seq<Signals> { Sorted(signals, IdLe) }

  ghost predicate Occurs(ordered: seq<Signals>, x: int, y: int, l: Signals, r: Signals) {
    0 <= x < y < |ordered| && ordered[x] == l && ordered[y] == r
  }

  lemma OrderedPairs(signals: seq<Signals>)
    requires DistinctIds(signals)
    ensures forall x, y :: 0 <= x < y < |ById(signals)| ==>
              ById(signals)[x] in signals && ById(signals)[y] in signals && Before(ById(signals)[x], ById(signals)[y])
    ensures forall l, r :: l in signals && r in signals && Before(l, r) ==> exists x, y :: Occurs(ById(signals), x, y, l, r)
  {
    var o := ById(signals);
    IdLeIsTotalPreorder();
    SortedIsPermutation(signals, IdLe);
    SortedIsAscending(signals, IdLe);
    assert Distinct(signals);
    SortedIsDistinct(signals, IdLe);
    forall x, y | 0 <= x < y < |o| ensures o[x] in signals && o[y] in signals && Before(o[x], o[y]) {
      assert o[x] in signals && o[y] in signals && o[x] != o[y];
      assert IdLe(o[x], o[y]);
    }
    forall l, r | l in signals && r in signals && Before(l, r) ensures exists x, y :: Occurs(o, x, y, l, r) {
      assert l in o && r in o;
      var x :| 0 <= x < |o| && o[x] == l;
      var y :| 0 <= y < |o| && o[y] == r;
      if y < x {
        LeAntisymmetric(l.id, r.id);
      }
      assert Occurs(o, x, y, l, r);
    }
  }

  /** The pairs already met when the outer loop is at `i` and the inner one at `j`. */
  ghost predicate Met(ordered: seq<Signals>, i: int, j: int, x: int, y: int) {
    0 <= x < y < |ordered| && (x < i || (x == i && y < j))
  }

  /** The results are those that `p` gives to the pairs already met. */
  ghost predicate Swept<T(!new)>(p: (Signals, Signals, T) -> bool, ordered: seq<Signals>, i: int, j: int, results: seq<T>) {
    forall c :: c in results <==> exists x, y :: Met(ordered, i, j, x, y) && p(ordered[x], ordered[y], c)
  }

  lemma SweepStep<T(!new)>(p: (Signals, Signals, T) -> bool, ordered: seq<Signals>, i: int, j: int,
                           results: seq<T>, block: seq<T>)
    requires 0 <= i < j < |ordered|
    requires Swept(p, ordered, i, j, results)
    requires forall c :: c in block <==> p(ordered[i], ordered[j], c)
    ensures Swept(p, ordered, i, j + 1, results + block)
  {
    forall c
      ensures c in results + block <==> exists x, y :: Met(ordered, i, j + 1, x, y) && p(ordered[x], ordered[y], c)
    {
      if c in results {
        var x, y :| Met(ordered, i, j, x, y) && p(ordered[x], ordered[y], c);
        assert Met(ordered, i, j + 1, x, y);
      } else if c in block {
        assert Met(ordered, i, j + 1, i, j);
      } else {
        forall x, y | Met(ordered, i, j + 1, x, y) ensures !p(ordered[x], ordered[y], c) {
          assert Met(ordered, i, j, x, y) || (x == i && y == j);
        }
      }
    }
  }

  lemma SweepRow<T(!new)>(p: (Signals, Signals, T) -> bool, ordered: seq<Signals>, i: int, results: seq<T>)
    ensures Swept(p, ordered, i, |ordered|, results) <==> Swept(p, ordered, i + 1, i + 2, results)
  {
    forall x, y ensures Met(ordered, i, |ordered|, x, y) <==> Met(ordered, i + 1, i + 2, x, y) {}
  }

  /** A finished sweep over all items reports `p` for every pair of different items. */
  lemma SweepEnd<T(!new)>(p: (Signals, Signals, T) -> bool, signals: seq<Signals>, o: seq<Signals>, results: seq<T>)
    requires DistinctIds(signals) && o == ById(signals)
    requires Swept(p, o, |o|, |o| + 1, results)
    ensures forall c :: c in results <==> exists l, r :: l in signals && r in signals && Before(l, r) && p(l, r, c)
  {
    OrderedPairs(signals);
    forall c ensures c in results <==> exists l, r :: l in signals && r in signals && Before(l, r) && p(l, r, c) {
      if c in results {
        var x, y :| Met(o, |o|, |o| + 1, x, y) && p(o[x], o[y], c);
        assert o[x] in signals && o[y] in signals && Before(o[x], o[y]);
      }
      if exists l, r :: l in signals && r in signals && Before(l, r) && p(l, r, c) {
        var l, r :| l in signals && r in signals && Before(l, r) && p(l, r, c);
        var x, y :| Occurs(o, x, y, l, r);
        assert Met(o, |o|, |o| + 1, x, y);
      }
    }
  }

  /** Every pair contributes at most one result, and the result tells the pair. */
  ghost predicate NamesPair<T(!new)>(make: (Signals, Signals) -> seq<T>) {
    && (forall l, r :: |make(l, r)| <= 1)
    && forall l, r, s, t, x :: x in make(l, r) && x in make(s, t) ==> l == s && r == t
  }

  /** The double loop over pairs, with what each pair contributes. */
  method SweepPairs<T(!new)>(ordered: seq<Signals>, make: (Signals, Signals) -> seq<T>, ghost p: (Signals, Signals, T) -> bool)
    returns (results: seq<T>)
    requires forall l, r, c :: p(l, r, c) <==> c in make(l, r)
    ensures Swept(p, ordered, |ordered|, |ordered| + 1, results)
    ensures Distinct(ordered) && NamesPair(make) ==> Distinct(results)
  {
    results := [];
    for i := 0 to |ordered|
      invariant Swept(p, ordered, i, i + 1, results)
      invariant Distinct(ordered) && NamesPair(make) ==> Distinct(results)
    {
      for j := i + 1 to |ordered|
        invariant Swept(p, ordered, i, j, results)
        invariant Distinct(ordered) && NamesPair(make) ==> Distinct(results)
      {
        var block := make(ordered[i], ordered[j]);
        if Distinct(ordered) && NamesPair(make) && block != [] {
          NewResult(p, make, ordered, i, j, results);
        }
        SweepStep(p, ordered, i, j, results, block);
        results := results + block;
      }
      SweepRow(p, ordered, i, results);
    }
  }

  lemma NewResult<T(!new)>(p: (Signals, Signals, T) -> bool, make: (Signals, Signals) -> seq<T>, ordered: seq<Signals>,
                           i: int, j: int, results: seq<T>)
    requires forall l, r, c :: p(l, r, c) <==> c in make(l, r)
    requires Distinct(ordered) && NamesPair(make) && 0 <= i < j < |ordered|
    requires Swept(p, ordered, i, j, results)
    requires make(ordered[i], ordered[j]) != []
    ensures make(ordered[i], ordered[j])[0] !in results
  {
    var x := make(ordered[i], ordered[j])[0];
    forall a, b | Met(ordered, i, j, a, b) ensures !p(ordered[a], ordered[b], x) {
      assert ordered[a] != ordered[i] || ordered[b] != ordered[j];
    }
  }
}
