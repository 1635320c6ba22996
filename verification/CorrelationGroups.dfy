/** Group matching (backend/app/correlation/matchers.py:114-124 and engine.py:450-497): an inverted
    index of the values an item carries, expanded to pairs value by value. */
module CorrelationGroups {
  import opened CorrelationModel
  import opened CorrelationSweep
  import opened Sorting
  import opened Text

  /** `c` is the first result with its key. */
  ghost predicate FirstIn(results: seq<Correlation>, i: int, c: Correlation) {
    0 <= i < |results| && results[i] == c && forall j :: 0 <= j < i ==> results[j].key != c.key
  }

  /** The items that carry a value, in their original order. */
  function Holders(signals: seq<Signals>, getter: Signals -> set<string>, value: string): seq<Signals>
  {
    if signals == [] then []
    else
      var last := signals[|signals| - 1];
      Holders(signals[..|signals| - 1], getter, value) + if value in getter(last) then [last] else []
  }

  lemma {:induction false} HoldersAre(signals: seq<Signals>, getter: Signals -> set<string>, value: string)
    ensures forall s :: s in Holders(signals, getter, value) <==> s in signals && value in getter(s)
  {
    if signals != [] {
      var n := |signals| - 1;
      HoldersAre(signals[..n], getter, value);
      forall s ensures s in signals <==> s in signals[..n] || s == signals[n] {
        assert signals == signals[..n] + [signals[n]];
      }
    }
  }

  lemma {:induction false} HoldersDistinct(signals: seq<Signals>, getter: Signals -> set<string>, value: string)
    requires DistinctIds(signals)
    ensures DistinctIds(Holders(signals, getter, value))
  {
    if signals != [] {
      var n := |signals| - 1;
      HoldersDistinct(signals[..n], getter, value);
      HoldersAre(signals[..n], getter, value);
      var before := Holders(signals[..n], getter, value);
      forall i | 0 <= i < |before| ensures before[i].id != signals[n].id {
        assert before[i] in signals[..n];
      }
    }
  }

  /** The inverted index: every non-empty value with the items that carry it. */
  ghost predicate IsIndex(groups: map<string, seq<Signals>>, signals: seq<Signals>, getter: Signals -> set<string>)
  {
    && (forall v :: v in groups <==> v != "" && Holders(signals, getter, v) != [])
    && (forall v :: v in groups ==> groups[v] == Holders(signals, getter, v))
  }

  method GroupByValue(signals: seq<Signals>, getter: Signals -> set<string>) returns (groups: map<string, seq<Signals>>)
    ensures IsIndex(groups, signals, getter)
  {
    groups := map[];
    for i := 0 to |signals|
      invariant IsIndex(groups, signals[..i], getter)
    {
      ghost var before := groups;
      assert signals[..i + 1][..i] == signals[..i];
      var values := getter(signals[i]);
      while values != {}
        invariant values <= getter(signals[i])
        invariant forall v :: v in groups <==> v in before || (v in getter(signals[i]) - values && v != "")
        invariant forall v :: v in groups ==>
          groups[v] == Holders(signals[..i], getter, v) + if v in getter(signals[i]) - values then [signals[i]] else []
        decreases values
      {
        var value :| value in values;
        if value != "" {
          var held := if value in groups then groups[value] else [];
          groups := groups[value := held + [signals[i]]];
        }
        values := values - {value};
      }
    }
    assert signals[..|signals|] == signals;
  }

  /** The elements of a set of strings in ascending order. */
  method SortStrings(xs: set<string>) returns (r: seq<string>)
    ensures forall x :: x in r <==> x in xs
    ensures Ascending(r, Le)
    ensures Distinct(r)
  {
    var rest, listed := xs, [];
    while rest != {}
      invariant rest <= xs && Distinct(listed)
      invariant forall x :: x in listed <==> x in xs - rest
      decreases rest
    {
      var x :| x in rest;
      assert x !in listed;
      listed := listed + [x];
      rest := rest - {x};
    }
    r := Sorted(listed, Le);
    LeIsTotalPreorder();
    SortedIsPermutation(listed, Le);
    SortedIsAscending(listed, Le);
    SortedIsDistinct(listed, Le);
  }

  lemma LeIsTotalPreorder()
    ensures TotalPreorder(Le)
  {
    forall x: string, y: string ensures Le(x, y) || Le(y, x) {
      LeTotal(x, y);
    }
    forall x: string, y: string, z: string | Le(x, y) && Le(y, z) ensures Le(x, z) {
      LeTransitive(x, y, z);
    }
  }

  /** Two different items that both carry a non-empty value. */
  ghost predicate GroupPair(signals: seq<Signals>, getter: Signals -> set<string>, value: string, l: Signals, r: Signals) {
    l in signals && r in signals && Before(l, r) && value in Common(getter, l, r)
  }

  ghost function Common(getter: Signals -> set<string>, l: Signals, r: Signals): set<string> {
    getter(l) * getter(r) - {""}
  }

  ghost predicate Smallest(signals: seq<Signals>, getter: Signals -> set<string>, value: string, l: Signals, r: Signals) {
    GroupPair(signals, getter, value, l, r) && IsLeast(value, Common(getter, l, r))
  }

  ghost predicate SamePairSameKey(make: (string, Signals, Signals) -> Correlation, v: string, w: string, l: Signals, r: Signals) {
    make(v, l, r).key == make(w, l, r).key && make(v, l, r).entities == [v]
  }

  ghost predicate InGroup(signals: seq<Signals>, getter: Signals -> set<string>, make: (string, Signals, Signals) -> Correlation,
                          value: string, c: Correlation)
  {
    exists l, r :: GroupPair(signals, getter, value, l, r) && c == make(value, l, r)
  }

  /** Every shared value of every pair is reported, and nothing else; what comes first for a
      pair carries the smallest value the pair shares. */
  ghost predicate GroupResults(results: seq<Correlation>, signals: seq<Signals>, getter: Signals -> set<string>,
                               make: (string, Signals, Signals) -> Correlation)
  {
    && (forall c :: c in results <==> exists v, l, r :: GroupPair(signals, getter, v, l, r) && c == make(v, l, r))
    && (forall i, c :: FirstIn(results, i, c) ==> exists v, l, r :: Smallest(signals, getter, v, l, r) && c == make(v, l, r))
  }

  method MatchGroups(signals: seq<Signals>, getter: Signals -> set<string>, make: (string, Signals, Signals) -> Correlation)
    returns (results: seq<Correlation>)
    requires DistinctIds(signals)
    requires forall v, w, l, r :: SamePairSameKey(make, v, w, l, r)
    ensures GroupResults(results, signals, getter, make)
  {
    results := [];
    var groups := GroupByValue(signals, getter);
    var values := SortStrings(groups.Keys);
    ghost var froms: seq<int> := [];
    for n := 0 to |values|
      invariant FromGroups(results, signals, getter, make, values, n, froms)
    {
      var value := values[n];
      var members := groups[value];
      var block := [];
      if |members| >= 2 {
        var ordered := Sorted(members, IdLe);
        var pair := (l, r) => [make(value, l, r)];
        ghost var p := (l: Signals, r: Signals, c: Correlation) => c == make(value, l, r);
        block := SweepPairs(ordered, pair, p);
        GroupSwept(signals, getter, make, value, p, block);
      } else {
        SmallGroup(signals, getter, make, value);
      }
      AddGroup(results, signals, getter, make, values, n, froms, block);
      froms := froms + seq(|block|, i => n);
      results := results + block;
    }
    forall v, l, r | GroupPair(signals, getter, v, l, r) ensures v in values {
      PairHasGroup(signals, getter, v, l, r);
    }
    AllGroups(results, signals, getter, make, values, froms);
  }

  lemma GroupSwept(signals: seq<Signals>, getter: Signals -> set<string>, make: (string, Signals, Signals) -> Correlation,
                   value: string, p: (Signals, Signals, Correlation) -> bool, results: seq<Correlation>)
    requires value != "" && DistinctIds(signals)
    requires forall l, r, c :: p(l, r, c) <==> c == make(value, l, r)
    requires var ordered := ById(Holders(signals, getter, value)); Swept(p, ordered, |ordered|, |ordered| + 1, results)
    ensures forall c :: c in results <==> InGroup(signals, getter, make, value, c)
  {
    var members := Holders(signals, getter, value);
    HoldersAre(signals, getter, value);
    HoldersDistinct(signals, getter, value);
    SweepEnd(p, members, ById(members), results);
    forall c | c in results ensures InGroup(signals, getter, make, value, c) {
      var l, r :| l in members && r in members && Before(l, r) && p(l, r, c);
      assert GroupPair(signals, getter, value, l, r);
    }
    forall c | InGroup(signals, getter, make, value, c) ensures c in results {
      var l, r :| GroupPair(signals, getter, value, l, r) && c == make(value, l, r);
      assert p(l, r, c) && l in members && r in members;
    }
  }

  lemma SmallGroup(signals: seq<Signals>, getter: Signals -> set<string>, make: (string, Signals, Signals) -> Correlation, value: string)
    requires |Holders(signals, getter, value)| < 2
    ensures forall c :: !InGroup(signals, getter, make, value, c)
  {
    HoldersAre(signals, getter, value);
    var held := Holders(signals, getter, value);
    assert forall l, r :: l in held && r in held ==> l == r;
  }

  lemma PairHasGroup(signals: seq<Signals>, getter: Signals -> set<string>, value: string, l: Signals, r: Signals)
    requires GroupPair(signals, getter, value, l, r)
    ensures value != "" && Holders(signals, getter, value) != []
  {
    HoldersAre(signals, getter, value);
    assert l in Holders(signals, getter, value);
  }

  /** `results` are the results of the groups of the first `n` values, in that order; the value
      of `results[i]` is `values[froms[i]]`. */
  ghost predicate FromGroups(results: seq<Correlation>, signals: seq<Signals>, getter: Signals -> set<string>,
                             make: (string, Signals, Signals) -> Correlation, values: seq<string>, n: int, froms: seq<int>)
  {
    && |froms| == |results| && 0 <= n <= |values|
    && (forall i :: 0 <= i < |results| ==> 0 <= froms[i] < n && InGroup(signals, getter, make, values[froms[i]], results[i]))
    && (forall i, j :: 0 <= i < j < |results| ==> froms[i] <= froms[j])
    && (forall m, c :: 0 <= m < n && InGroup(signals, getter, make, values[m], c) ==> c in results)
  }

  lemma AddGroup(results: seq<Correlation>, signals: seq<Signals>, getter: Signals -> set<string>,
                 make: (string, Signals, Signals) -> Correlation, values: seq<string>, n: int, froms: seq<int>, block: seq<Correlation>)
    requires 0 <= n < |values| && FromGroups(results, signals, getter, make, values, n, froms)
    requires forall c :: c in block <==> InGroup(signals, getter, make, values[n], c)
    ensures FromGroups(results + block, signals, getter, make, values, n + 1, froms + seq(|block|, i => n))
  {
    var all, origin := results + block, froms + seq(|block|, i => n);
    forall i | 0 <= i < |all| ensures 0 <= origin[i] < n + 1 && InGroup(signals, getter, make, values[origin[i]], all[i]) {
      if i >= |results| {
        assert all[i] == block[i - |results|] && all[i] in block;
      }
    }
    forall m, c | 0 <= m < n + 1 && InGroup(signals, getter, make, values[m], c) ensures c in all {
      assert m < n || c in block;
    }
  }

  lemma AllGroups(results: seq<Correlation>, signals: seq<Signals>, getter: Signals -> set<string>,
                  make: (string, Signals, Signals) -> Correlation, values: seq<string>, froms: seq<int>)
    requires Ascending(values, Le)
    requires FromGroups(results, signals, getter, make, values, |values|, froms)
    requires forall v, l, r :: GroupPair(signals, getter, v, l, r) ==> v in values
    requires forall v, w, l, r :: SamePairSameKey(make, v, w, l, r)
    ensures GroupResults(results, signals, getter, make)
  {
    forall c | c in results ensures exists v, l, r :: GroupPair(signals, getter, v, l, r) && c == make(v, l, r) {
      var i :| 0 <= i < |results| && results[i] == c;
      assert InGroup(signals, getter, make, values[froms[i]], c);
    }
    forall v, l, r | GroupPair(signals, getter, v, l, r) ensures make(v, l, r) in results {
      var n := GroupHas(results, signals, getter, make, values, froms, v, l, r);
    }
    forall i, c | FirstIn(results, i, c) ensures exists v, l, r :: Smallest(signals, getter, v, l, r) && c == make(v, l, r) {
      FirstOfGroup(results, signals, getter, make, values, froms, i);
    }
  }

  lemma GroupHas(results: seq<Correlation>, signals: seq<Signals>, getter: Signals -> set<string>,
                 make: (string, Signals, Signals) -> Correlation, values: seq<string>, froms: seq<int>,
                 v: string, l: Signals, r: Signals) returns (n: int)
    requires FromGroups(results, signals, getter, make, values, |values|, froms)
    requires v in values && GroupPair(signals, getter, v, l, r)
    requires forall v, w, l, r :: SamePairSameKey(make, v, w, l, r)
    ensures 0 <= n < |results| && results[n] == make(v, l, r) && values[froms[n]] == v
  {
    var m :| 0 <= m < |values| && values[m] == v;
    assert GroupPair(signals, getter, values[m], l, r) && make(v, l, r) == make(values[m], l, r);
    var c := make(v, l, r);
    assert InGroup(signals, getter, make, values[m], c);
    assert c in results;
    n :| 0 <= n < |results| && results[n] == c;
    var w := values[froms[n]];
    var s, t :| GroupPair(signals, getter, w, s, t) && results[n] == make(w, s, t);
    assert SamePairSameKey(make, v, v, l, r) && SamePairSameKey(make, w, w, s, t);
    assert [v][0] == [w][0];
  }

  /** Because the values come in ascending order, the first result of a pair carries the
      smallest value the pair shares. */
  lemma FirstOfGroup(results: seq<Correlation>, signals: seq<Signals>, getter: Signals -> set<string>,
                     make: (string, Signals, Signals) -> Correlation, values: seq<string>, froms: seq<int>, i: int)
    requires Ascending(values, Le)
    requires FromGroups(results, signals, getter, make, values, |values|, froms)
    requires forall v, l, r :: GroupPair(signals, getter, v, l, r) ==> v in values
    requires forall v, w, l, r :: SamePairSameKey(make, v, w, l, r)
    requires 0 <= i < |results| && FirstIn(results, i, results[i])
    ensures exists v, l, r :: Smallest(signals, getter, v, l, r) && results[i] == make(v, l, r)
  {
    var v := values[froms[i]];
    var l, r :| GroupPair(signals, getter, v, l, r) && results[i] == make(v, l, r);
    forall w | w in Common(getter, l, r) ensures Le(v, w) {
      assert GroupPair(signals, getter, w, l, r);
      var n := GroupHas(results, signals, getter, make, values, froms, w, l, r);
      assert SamePairSameKey(make, w, v, l, r);
      LeReflexive(v);
      assert froms[i] <= froms[n];
    }
    assert Smallest(signals, getter, v, l, r);
  }
}
