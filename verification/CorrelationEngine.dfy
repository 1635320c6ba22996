/** Assembly of the matchers' results (backend/app/correlation/engine.py): deduplication by key
    and the final sort. */
module CorrelationEngine {
  import opened CorrelationGroups
  import opened CorrelationMatchers
  import opened CorrelationModel
  import opened Sorting
  import opened Text

  // ----- deduplication -------------------------------------------------------------------

  /** Among the first `n` items, `items[i]` has the highest score of its key, and no earlier item
      reaches that score. */
  ghost predicate Leads(items: seq<Correlation>, n: int, i: int) {
    && 0 <= i < n <= |items|
    && forall j :: 0 <= j < n && items[j].key == items[i].key ==>
         items[j].score <= items[i].score && (j < i ==> items[j].score < items[i].score)
  }

  ghost predicate Survives(items: seq<Correlation>, i: int) { Leads(items, |items|, i) }

  /** The dictionary after the first `n` items: for every key the item that leads. */
  ghost predicate IsUnique(items: seq<Correlation>, n: int, unique: map<string, Correlation>, leader: map<string, int>) {
    && 0 <= n <= |items|
    && unique.Keys == leader.Keys
    && (forall i :: 0 <= i < n ==> items[i].key in unique)
    && (forall key :: key in unique ==>
         Leads(items, n, leader[key]) && items[leader[key]] == unique[key] && unique[key].key == key)
  }

  method Deduplicate(items: seq<Correlation>) returns (r: seq<Correlation>)
    ensures forall i, j :: 0 <= i < j < |r| ==> r[i].key != r[j].key
    ensures forall c :: c in r <==> exists i :: Survives(items, i) && items[i] == c
  {
    var order: seq<string> := [];
    var unique: map<string, Correlation> := map[];
    ghost var leader: map<string, int> := map[];
    for n := 0 to |items|
      invariant Distinct(order) && forall key :: key in order <==> key in unique
      invariant IsUnique(items, n, unique, leader)
    {
      var item := items[n];
      if item.key !in unique {
        UniquePut(items, n, unique, leader);
        order := order + [item.key];
        unique, leader := unique[item.key := item], leader[item.key := n];
      } else if item.score > unique[item.key].score {
        UniquePut(items, n, unique, leader);
        unique, leader := unique[item.key := item], leader[item.key := n];
      } else {
        UniqueKeep(items, n, unique, leader);
      }
    }
    r := seq(|order|, i requires 0 <= i < |order| => unique[order[i]]);
    UniqueValues(items, order, unique, leader, r);
  }

  lemma UniqueKeep(items: seq<Correlation>, n: int, unique: map<string, Correlation>, leader: map<string, int>)
    requires 0 <= n < |items| && IsUnique(items, n, unique, leader)
    requires items[n].key in unique && items[n].score <= unique[items[n].key].score
    ensures IsUnique(items, n + 1, unique, leader)
  {
    forall key | key in unique ensures Leads(items, n + 1, leader[key]) {
      LeaderStays(items, n, leader[key]);
    }
  }

  lemma UniquePut(items: seq<Correlation>, n: int, unique: map<string, Correlation>, leader: map<string, int>)
    requires 0 <= n < |items| && IsUnique(items, n, unique, leader)
    requires items[n].key in unique ==> items[n].score > unique[items[n].key].score
    ensures IsUnique(items, n + 1, unique[items[n].key := items[n]], leader[items[n].key := n])
  {
    forall key | key in unique && key != items[n].key ensures Leads(items, n + 1, leader[key]) {
      LeaderStays(items, n, leader[key]);
    }
    if items[n].key in unique {
      assert Leads(items, n, leader[items[n].key]);
    }
    assert Leads(items, n + 1, n);
  }

  lemma LeaderStays(items: seq<Correlation>, n: int, i: int)
    requires 0 <= n < |items| && Leads(items, n, i)
    requires items[i].key != items[n].key || items[n].score <= items[i].score
    ensures Leads(items, n + 1, i)
  {}

  lemma UniqueValues(items: seq<Correlation>, order: seq<string>, unique: map<string, Correlation>, leader: map<string, int>,
                     r: seq<Correlation>)
    requires IsUnique(items, |items|, unique, leader)
    requires Distinct(order) && forall key :: key in order <==> key in unique
    requires |r| == |order| && forall i :: 0 <= i < |order| ==> order[i] in unique && r[i] == unique[order[i]]
    ensures forall i, j :: 0 <= i < j < |r| ==> r[i].key != r[j].key
    ensures forall c :: c in r <==> exists i :: Survives(items, i) && items[i] == c
  {
    forall c | c in r ensures exists i :: Survives(items, i) && items[i] == c {
      var n :| 0 <= n < |r| && r[n] == c;
      assert Survives(items, leader[order[n]]);
    }
    forall i | Survives(items, i) ensures items[i] in r {
      var key := items[i].key;
      assert i == leader[key];
      assert key in order;
      var n :| 0 <= n < |order| && order[n] == key;
      assert r[n] == items[i];
    }
  }

  // ----- collecting the kinds ------------------------------------------------------------

  /** The first result of each key among `results` is exactly what is wanted of `kinds`. */
  ghost predicate Covers(results: seq<Correlation>, signals: seq<Signals>, kinds: set<Kind>) {
    && (forall c :: c in results ==> c.kind in kinds && OfKind(c, c.kind))
    && forall c :: (exists i :: FirstIn(results, i, c)) <==> c.kind in kinds && Wanted(signals, c.kind, c)
  }

  lemma Extend(results: seq<Correlation>, signals: seq<Signals>, kinds: set<Kind>, block: seq<Correlation>, k: Kind)
    requires Covers(results, signals, kinds) && k !in kinds && Delivers(block, signals, k)
    ensures Covers(results + block, signals, kinds + {k})
  {
    var all := results + block;
    forall c, d | c in results && d in block ensures c.key != d.key {
      KeyInjective(c.left, c.right, c.kind, d.left, d.right, d.kind);
    }
    forall c ensures (exists i :: FirstIn(all, i, c)) <==> c.kind in kinds + {k} && Wanted(signals, c.kind, c) {
      FirstInBoth(results, block, c);
      if exists i :: FirstIn(block, i, c) {
        assert c in block;
      } else if Wanted(signals, c.kind, c) {
        assert c.kind == k ==> exists i :: FirstIn(block, i, c);
      }
    }
  }

  lemma FirstInBoth(results: seq<Correlation>, block: seq<Correlation>, c: Correlation)
    requires forall x, y :: x in results && y in block ==> x.key != y.key
    ensures (exists i :: FirstIn(results + block, i, c)) <==> (exists i :: FirstIn(results, i, c)) || (exists i :: FirstIn(block, i, c))
  {
    var all, n := results + block, |results|;
    if i :| FirstIn(results, i, c) {
      assert FirstIn(all, i, c);
    }
    if i :| FirstIn(block, i, c) {
      assert all[n + i] == block[i];
      assert FirstIn(all, n + i, c);
    }
    if i :| FirstIn(all, i, c) {
      if i < n {
        forall j | 0 <= j < i ensures results[j].key != c.key {
          assert all[j] == results[j];
        }
        assert FirstIn(results, i, c);
      } else {
        forall j | 0 <= j < i - n ensures block[j].key != c.key {
          assert all[n + j] == block[j];
        }
        assert FirstIn(block, i - n, c);
      }
    }
  }

  /** With one score per key, surviving deduplication is being first. */
  lemma SurvivesIsFirst(results: seq<Correlation>, signals: seq<Signals>, kinds: set<Kind>, c: Correlation)
    requires Covers(results, signals, kinds)
    ensures (exists i :: Survives(results, i) && results[i] == c) <==> exists i :: FirstIn(results, i, c)
  {
    forall x, y | x in results && y in results && x.key == y.key ensures x.score == y.score {
      KeyInjective(x.left, x.right, x.kind, y.left, y.right, y.kind);
    }
    if i :| Survives(results, i) && results[i] == c {
      assert FirstIn(results, i, c);
    }
    if i :| FirstIn(results, i, c) {
      assert Survives(results, i);
    }
  }

  // ----- the final order -----------------------------------------------------------------

  /** The order of the sort key: descending score, then kind value, then the two identifiers,
      then the key. */
  predicate RankLe(c: Correlation, d: Correlation) {
    if c.score != d.score then c.score > d.score
    else if c.kind != d.kind then Le(KindValue(c.kind), KindValue(d.kind))
    else if c.left != d.left then Le(c.left, d.left)
    else if c.right != d.right then Le(c.right, d.right)
    else Le(c.key, d.key)
  }

  lemma RankLeIsTotalPreorder()
    ensures TotalPreorder(RankLe)
  {
    forall c: Correlation, d: Correlation ensures RankLe(c, d) || RankLe(d, c) {
      LeTotal(KindValue(c.kind), KindValue(d.kind));
      LeTotal(c.left, d.left);
      LeTotal(c.right, d.right);
      LeTotal(c.key, d.key);
    }
    forall c: Correlation, d: Correlation, e: Correlation | RankLe(c, d) && RankLe(d, e) ensures RankLe(c, e) {
      RankLeTransitive(c, d, e);
    }
  }

  lemma RankLeTransitive(c: Correlation, d: Correlation, e: Correlation)
    requires RankLe(c, d) && RankLe(d, e)
    ensures RankLe(c, e)
  {
    if c.score == d.score == e.score {
      if c.kind == d.kind == e.kind {
        if c.left == d.left == e.left {
          if c.right == d.right == e.right {
            LeTransitive(c.key, d.key, e.key);
          } else {
            StepTransitive(c.right, d.right, e.right);
          }
        } else {
          StepTransitive(c.left, d.left, e.left);
        }
      } else {
        KindStep(c.kind, d.kind, e.kind);
      }
    }
  }

  /** One position of a lexicographic order: steps that are equal or ascending compose, and are
      together equal only when both are. */
  lemma StepTransitive(a: string, b: string, c: string)
    requires (a == b || Le(a, b)) && (b == c || Le(b, c)) && !(a == b == c)
    ensures a != c && Le(a, c)
  {
    LeReflexive(a);
    LeReflexive(c);
    LeTransitive(a, b, c);
    if a == c {
      LeAntisymmetric(a, b);
    }
  }

  lemma KindStep(a: Kind, b: Kind, c: Kind)
    requires (a == b || Le(KindValue(a), KindValue(b))) && (b == c || Le(KindValue(b), KindValue(c))) && !(a == b == c)
    ensures a != c && Le(KindValue(a), KindValue(c))
  {
    if KindValue(a) == KindValue(b) == KindValue(c) {
      KindValueInjective(a, b);
      KindValueInjective(b, c);
    }
    StepTransitive(KindValue(a), KindValue(b), KindValue(c));
  }

  /** Strictly before in the final order, read off kind and pair alone. */
  predicate SlotLt(c: Slot, d: Slot) {
    if ScoreFor(c.kind) != ScoreFor(d.kind) then ScoreFor(c.kind) > ScoreFor(d.kind)
    else if c.kind != d.kind then Le(KindValue(c.kind), KindValue(d.kind))
    else if c.left != d.left then Le(c.left, d.left)
    else c.right != d.right && Le(c.right, d.right)
  }

  datatype Slot = Slot(kind: Kind, left: Uuid, right: Uuid)

  function SlotOf(c: Correlation): Slot { Slot(c.kind, c.left, c.right) }

  lemma RankIsSlotOrder(c: Correlation, d: Correlation)
    requires OfKind(c, c.kind) && OfKind(d, d.kind) && c.key != d.key && RankLe(c, d)
    ensures SlotLt(SlotOf(c), SlotOf(d))
  {
    assert SlotOf(c) != SlotOf(d);
  }

  // ----- the engine ----------------------------------------------------------------------

  /** The reference definition of the whole output. */
  ghost predicate IsOutput(signals: seq<Signals>, out: seq<Correlation>) {
    if |signals| < 2 then out == []
    else
      && (forall c :: c in out <==> Wanted(signals, c.kind, c))
      && forall i, j :: 0 <= i < j < |out| ==> SlotLt(SlotOf(out[i]), SlotOf(out[j]))
  }

  const EXACT_ORDER: seq<Kind> :=
    [SameHash, SameEmail, SamePhone, SameQr, SameCamera, SameDevice, SameLocation,
     SameDocument, SharedIdentifier, SameLogo]

  lemma ExactOrderComplete(k: Kind)
    ensures IsExact(k) <==> k in EXACT_ORDER
  {
    match k {
      case SameHash => assert EXACT_ORDER[0] == k;
      case SameEmail => assert EXACT_ORDER[1] == k;
      case SamePhone => assert EXACT_ORDER[2] == k;
      case SameQr => assert EXACT_ORDER[3] == k;
      case SameCamera => assert EXACT_ORDER[4] == k;
      case SameDevice => assert EXACT_ORDER[5] == k;
      case SameLocation => assert EXACT_ORDER[6] == k;
      case SameDocument => assert EXACT_ORDER[7] == k;
      case SharedIdentifier => assert EXACT_ORDER[8] == k;
      case SameLogo => assert EXACT_ORDER[9] == k;
      case _ =>
    }
  }

  ghost function ExactKinds(): set<Kind> { set k | k in EXACT_ORDER }

  ghost function AllKinds(): set<Kind> {
    ExactKinds() + {SharedMetadata} + {SameSignature} + {SameAudioSpeaker} + {SimilarFilename} + {TemporalOverlap}
  }

  lemma AllKindsComplete(k: Kind)
    ensures k in AllKinds()
    ensures k in ExactKinds() <==> IsExact(k)
  {
    ExactOrderComplete(k);
  }

  method MatchExactKinds(signals: seq<Signals>) returns (results: seq<Correlation>)
    requires DistinctIds(signals)
    ensures Covers(results, signals, ExactKinds())
  {
    results := [];
    ghost var kinds: set<Kind> := {};
    for i := 0 to |EXACT_ORDER|
      invariant kinds == set k | k in EXACT_ORDER[..i]
      invariant Covers(results, signals, kinds)
    {
      var k := EXACT_ORDER[i];
      ExactOrderComplete(k);
      var block := MatchExactGroups(signals, k);
      assert k !in EXACT_ORDER[..i];
      Extend(results, signals, kinds, block, k);
      results := results + block;
      kinds := kinds + {k};
    }
  }

  method MatchAll(signals: seq<Signals>) returns (results: seq<Correlation>)
    requires DistinctIds(signals)
    ensures Covers(results, signals, AllKinds())
  {
    results := MatchExactKinds(signals);
    ghost var kinds := ExactKinds();
    forall k ensures k in kinds <==> IsExact(k) {
      AllKindsComplete(k);
    }
    var metadata := MatchSharedMetadata(signals);
    Extend(results, signals, kinds, metadata, SharedMetadata);
    results, kinds := results + metadata, kinds + {SharedMetadata};
    var signatures := MatchLinks(signals, SameSignature);
    Extend(results, signals, kinds, signatures, SameSignature);
    results, kinds := results + signatures, kinds + {SameSignature};
    var speakers := MatchLinks(signals, SameAudioSpeaker);
    Extend(results, signals, kinds, speakers, SameAudioSpeaker);
    results, kinds := results + speakers, kinds + {SameAudioSpeaker};
    var filenames := MatchFilenames(signals);
    Extend(results, signals, kinds, filenames, SimilarFilename);
    results, kinds := results + filenames, kinds + {SimilarFilename};
    var temporal := MatchTemporal(signals);
    Extend(results, signals, kinds, temporal, TemporalOverlap);
    results := results + temporal;
  }

  method Build(signals: seq<Signals>) returns (out: seq<Correlation>)
    requires DistinctIds(signals)
    ensures IsOutput(signals, out)
  {
    if |signals| < 2 {
      return [];
    }
    var all := MatchAll(signals);
    var unique := Deduplicate(all);
    out := Sorted(unique, RankLe);
    forall k: Kind ensures k in AllKinds() {
      AllKindsComplete(k);
    }
    FinalOrder(all, signals, AllKinds(), unique);
  }

  lemma FinalOrder(all: seq<Correlation>, signals: seq<Signals>, kinds: set<Kind>, unique: seq<Correlation>)
    requires |signals| >= 2 && Covers(all, signals, kinds) && forall k: Kind :: k in kinds
    requires forall i, j :: 0 <= i < j < |unique| ==> unique[i].key != unique[j].key
    requires forall c :: c in unique <==> exists i :: Survives(all, i) && all[i] == c
    ensures IsOutput(signals, Sorted(unique, RankLe))
  {
    SortedIsPermutation(unique, RankLe);
    forall c: Correlation ensures c in unique <==> Wanted(signals, c.kind, c) {
      SurvivesIsFirst(all, signals, kinds, c);
    }
    forall c | c in unique ensures OfKind(c, c.kind) {
      WantedOfKind(signals, c.kind, c);
    }
    StrictOrder(unique);
  }

  /** Sorting correlations with different keys puts them in strictly ascending slot order. */
  lemma StrictOrder(unique: seq<Correlation>)
    requires forall i, j :: 0 <= i < j < |unique| ==> unique[i].key != unique[j].key
    requires forall c :: c in unique ==> OfKind(c, c.kind)
    ensures var out := Sorted(unique, RankLe);
            forall i, j :: 0 <= i < j < |out| ==> SlotLt(SlotOf(out[i]), SlotOf(out[j]))
  {
    var out := Sorted(unique, RankLe);
    RankLeIsTotalPreorder();
    SortedIsPermutation(unique, RankLe);
    SortedIsAscending(unique, RankLe);
    SortedIsDistinct(unique, RankLe);
    forall i, j | 0 <= i < j < |out| ensures SlotLt(SlotOf(out[i]), SlotOf(out[j])) {
      assert out[i] in unique && out[j] in unique && out[i] != out[j];
      RankIsSlotOrder(out[i], out[j]);
    }
  }
}
