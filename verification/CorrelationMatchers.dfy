/** The matchers of backend/app/correlation/engine.py and matchers.py. */
module CorrelationMatchers {
  import opened CorrelationGroups
  import opened CorrelationModel
  import opened CorrelationSweep
  import opened CorrelationTimes
  import opened Options
  import opened Sorting
  import opened Text

  /** Every result is a well formed correlation of kind `k`. */
  ghost predicate AllOfKind(results: seq<Correlation>, k: Kind) {
    forall c :: c in results ==> OfKind(c, k)
  }

  ghost predicate OfKind(c: Correlation, k: Kind) {
    c.kind == k && c.score == ScoreFor(k) && c.key == CorrelationKey(c.left, c.right, k) && Le(c.left, c.right)
  }

  /** Keeping the first result of each key leaves exactly what the reference definition wants. */
  ghost predicate Delivers(results: seq<Correlation>, signals: seq<Signals>, k: Kind) {
    && AllOfKind(results, k)
    && forall c :: (exists i :: FirstIn(results, i, c)) <==> Wanted(signals, k, c)
  }

  // ----- keys ----------------------------------------------------------------------------

  /** Length and last character tell the fifteen values apart. */
  lemma KindValueSignature(k: Kind)
    ensures ':' !in KindValue(k)
    ensures (|KindValue(k)|, KindValue(k)[|KindValue(k)| - 1]) == match k
      case SameHash => (9, 'h')
      case SameEmail => (10, 'l')
      case SamePhone => (10, 'e')
      case SameQr => (7, 'r')
      case SameCamera => (11, 'a')
      case SameDevice => (11, 'e')
      case SameLocation => (13, 'n')
      case SameDocument => (13, 't')
      case SharedIdentifier => (17, 'r')
      case SameLogo => (9, 'o')
      case SharedMetadata => (15, 'a')
      case SameSignature => (14, 'e')
      case SameAudioSpeaker => (18, 'r')
      case SimilarFilename => (16, 'e')
      case TemporalOverlap => (16, 'p')
  {}

  lemma KindValueInjective(k: Kind, m: Kind)
    requires KindValue(k) == KindValue(m)
    ensures k == m
  {
    KindValueSignature(k);
    KindValueSignature(m);
  }

  lemma CanonicalPairOf(a: Uuid, b: Uuid)
    ensures var (l, r) := CanonicalPair(a, b);
            Le(l, r) && SamePair(l, r, a, b) && CanonicalPair(l, r) == (l, r)
    ensures CanonicalPair(a, b) == CanonicalPair(b, a)
  {
    LeTotal(a, b);
    if Le(a, b) && Le(b, a) {
      LeAntisymmetric(a, b);
    }
  }

  /** A key stands for one kind and one unordered pair. */
  lemma KeyInjective(a: Uuid, b: Uuid, k: Kind, c: Uuid, d: Uuid, m: Kind)
    ensures CorrelationKey(a, b, k) == CorrelationKey(c, d, m) <==> k == m && SamePair(a, b, c, d)
  {
    CanonicalPairOf(a, b);
    CanonicalPairOf(c, d);
    var p, q := CanonicalPair(a, b), CanonicalPair(c, d);
    if CorrelationKey(a, b, k) == CorrelationKey(c, d, m) {
      var u, v := KindValue(k), KindValue(m);
      KindValueSignature(k);
      KindValueSignature(m);
      assert u + ":" + p.0 + ":" + p.1 == u + [':'] + (p.0 + [':'] + p.1);
      assert v + ":" + q.0 + ":" + q.1 == v + [':'] + (q.0 + [':'] + q.1);
      SplitUnique(u, p.0 + [':'] + p.1, v, q.0 + [':'] + q.1, ':');
      SplitUnique(p.0, p.1, q.0, q.1, ':');
      KindValueInjective(k, m);
    }
  }

  lemma MadeOfKind(l: Uuid, r: Uuid, k: Kind, entities: seq<string>, findings: seq<string>)
    ensures OfKind(MakeCorrelation(l, r, k, entities, findings), k)
    ensures var c := MakeCorrelation(l, r, k, entities, findings);
            c.key == CorrelationKey(l, r, k) && SamePair(c.left, c.right, l, r)
  {
    CanonicalPairOf(l, r);
  }

  lemma OverlapUnique(ls: seq<Event>, rs: seq<Event>, o: Overlap, u: Overlap)
    requires IsOverlap(ls, rs, o) && IsOverlap(ls, rs, u)
    ensures o == u
  {}

  /** Two items have at most one correlation of a kind. */
  lemma PairCorrelationUnique(k: Kind, l: Signals, r: Signals, c: Correlation, d: Correlation)
    requires PairCorrelation(k, l, r, c) && PairCorrelation(k, l, r, d)
    ensures c == d
  {
    if IsExact(k) {
      var v :| IsLeast(v, Shared(k, l, r)) && c == ExactCorrelation(k, l, r, v);
      var w :| IsLeast(w, Shared(k, l, r)) && d == ExactCorrelation(k, l, r, w);
      LeastUnique(v, w, Shared(k, l, r));
    } else if k == SharedMetadata {
      var f :| IsLeast(f, SharedFields(l, r)) && c == MetadataCorrelation(l, r, f);
      var g :| IsLeast(g, SharedFields(l, r)) && d == MetadataCorrelation(l, r, g);
      LeastUnique(f, g, SharedFields(l, r));
    } else if k == TemporalOverlap {
      var o :| IsOverlap(l.events, r.events, o) && c == TemporalCorrelation(l, r, o);
      var u :| IsOverlap(l.events, r.events, u) && d == TemporalCorrelation(l, r, u);
      OverlapUnique(l.events, r.events, o, u);
    }
  }

  lemma PairCorrelationShape(k: Kind, l: Signals, r: Signals, c: Correlation)
    requires Before(l, r) && PairCorrelation(k, l, r, c)
    ensures OfKind(c, k) && c.left == l.id && c.right == r.id
  {
    MadeOfKind(l.id, r.id, k, c.entities, c.findings);
    assert c == MakeCorrelation(l.id, r.id, k, c.entities, c.findings);
  }

  /** A wanted correlation is determined by its key. */
  lemma WantedByKey(signals: seq<Signals>, k: Kind, c: Correlation, d: Correlation)
    requires DistinctIds(signals)
    requires Wanted(signals, k, c) && Wanted(signals, k, d) && c.key == d.key
    ensures c == d
  {
    if IsLink(k) {
      var i :| FirstLink(k, Links(k, signals), i, c);
      var j :| FirstLink(k, Links(k, signals), j, d);
      FirstLinkByKey(k, Links(k, signals), i, c, j, d);
    } else {
      var l, r :| l in signals && r in signals && Before(l, r) && PairCorrelation(k, l, r, c);
      var s, t :| s in signals && t in signals && Before(s, t) && PairCorrelation(k, s, t, d);
      PairKeyUnique(k, l, r, c, s, t, d);
      SameItem(signals, l, s);
      SameItem(signals, r, t);
      PairCorrelationUnique(k, l, r, c, d);
    }
  }

  lemma FirstLinkByKey(k: Kind, links: seq<Link>, i: int, c: Correlation, j: int, d: Correlation)
    requires IsLink(k) && FirstLink(k, links, i, c) && FirstLink(k, links, j, d) && c.key == d.key
    ensures i == j && c == d
  {
    MadeOfKind(links[i].left, links[i].right, k, c.entities, c.findings);
    MadeOfKind(links[j].left, links[j].right, k, d.entities, d.findings);
    KeyInjective(links[i].left, links[i].right, k, links[j].left, links[j].right, k);
  }

  lemma PairKeyUnique(k: Kind, l: Signals, r: Signals, c: Correlation, s: Signals, t: Signals, d: Correlation)
    requires Before(l, r) && PairCorrelation(k, l, r, c)
    requires Before(s, t) && PairCorrelation(k, s, t, d)
    requires c.key == d.key
    ensures l.id == s.id && r.id == t.id
  {
    PairCorrelationShape(k, l, r, c);
    PairCorrelationShape(k, s, t, d);
    KeyInjective(l.id, r.id, k, s.id, t.id, k);
    if l.id == t.id {
      LeAntisymmetric(l.id, r.id);
    }
  }

  lemma SameItem(signals: seq<Signals>, x: Signals, y: Signals)
    requires DistinctIds(signals) && x in signals && y in signals && x.id == y.id
    ensures x == y
  {}

  lemma {:induction false} FirstExists(results: seq<Correlation>, n: nat) returns (i: int)
    requires n < |results|
    ensures 0 <= i <= n && FirstIn(results, i, results[i]) && results[i].key == results[n].key
    decreases n
  {
    i := n;
    if j :| 0 <= j < n && results[j].key == results[n].key {
      i := FirstExists(results, j);
    }
  }

  /** When the first result of every key is wanted and nothing wanted is missing, the results
      deliver their kind. */
  lemma FirstsDeliver(results: seq<Correlation>, signals: seq<Signals>, k: Kind)
    requires DistinctIds(signals) && AllOfKind(results, k)
    requires forall i, c :: FirstIn(results, i, c) ==> Wanted(signals, k, c)
    requires forall c :: Wanted(signals, k, c) ==> c in results
    ensures Delivers(results, signals, k)
  {
    forall c | Wanted(signals, k, c) ensures exists i :: FirstIn(results, i, c) {
      var n :| 0 <= n < |results| && results[n] == c;
      var i := FirstExists(results, n);
      WantedByKey(signals, k, c, results[i]);
    }
  }

  /** A sweep that reports exactly the pairwise correlations delivers its kind. */
  lemma SweepDelivers(results: seq<Correlation>, signals: seq<Signals>, k: Kind)
    requires DistinctIds(signals) && !IsLink(k)
    requires forall c :: c in results <==>
               exists l, r :: l in signals && r in signals && Before(l, r) && PairCorrelation(k, l, r, c)
    ensures Delivers(results, signals, k)
  {
    assert forall c :: c in results <==> Wanted(signals, k, c);
    forall c | c in results ensures OfKind(c, k) {
      WantedOfKind(signals, k, c);
    }
    FirstsDeliver(results, signals, k);
  }

  lemma WantedOfKind(signals: seq<Signals>, k: Kind, c: Correlation)
    requires Wanted(signals, k, c)
    ensures OfKind(c, k)
  {
    if IsLink(k) {
      var i :| FirstLink(k, Links(k, signals), i, c);
      MadeOfKind(Links(k, signals)[i].left, Links(k, signals)[i].right, k, c.entities, c.findings);
    } else {
      var l, r :| l in signals && r in signals && Before(l, r) && PairCorrelation(k, l, r, c);
      PairCorrelationShape(k, l, r, c);
    }
  }

  // ----- exact groups --------------------------------------------------------------------

  /** The getter and the constructor that the engine hands to the group matcher. */
  function Getter(k: Kind): Signals -> set<string>
    requires IsExact(k)
  {
    s => Values(k, s)
  }

  function Maker(k: Kind): (string, Signals, Signals) -> Correlation
    requires IsExact(k)
  {
    (v, l, r) => ExactCorrelation(k, l, r, v)
  }

  method MatchExactGroups(signals: seq<Signals>, k: Kind) returns (results: seq<Correlation>)
    requires IsExact(k) && DistinctIds(signals)
    ensures Delivers(results, signals, k)
  {
    forall v, w, l, r ensures SamePairSameKey(Maker(k), v, w, l, r) {
      ExactKey(k, l, r, v, w);
    }
    results := MatchGroups(signals, Getter(k), Maker(k));
    GroupsDeliver(results, signals, k);
  }

  lemma ExactKey(k: Kind, l: Signals, r: Signals, v: string, w: string)
    requires IsExact(k)
    ensures ExactCorrelation(k, l, r, v).key == ExactCorrelation(k, l, r, w).key
    ensures ExactCorrelation(k, l, r, v).entities == [v]
    ensures OfKind(ExactCorrelation(k, l, r, v), k)
  {
    MadeOfKind(l.id, r.id, k, ExactCorrelation(k, l, r, v).entities, ExactCorrelation(k, l, r, v).findings);
  }

  lemma GroupsDeliver(results: seq<Correlation>, signals: seq<Signals>, k: Kind)
    requires IsExact(k) && DistinctIds(signals)
    requires GroupResults(results, signals, Getter(k), Maker(k))
    ensures Delivers(results, signals, k)
  {
    forall c | c in results ensures OfKind(c, k) {
      var v, l, r :| GroupPair(signals, Getter(k), v, l, r) && c == Maker(k)(v, l, r);
      ExactKey(k, l, r, v, v);
    }
    forall i, c | FirstIn(results, i, c) ensures Wanted(signals, k, c) {
      var v, l, r :| Smallest(signals, Getter(k), v, l, r) && c == Maker(k)(v, l, r);
      SmallestIsWanted(signals, k, v, l, r);
    }
    forall c | Wanted(signals, k, c) ensures c in results {
      var l, r :| l in signals && r in signals && Before(l, r) && PairCorrelation(k, l, r, c);
      var v := LeastShared(k, l, r, c);
      WantedPair(signals, k, v, l, r);
      assert c == Maker(k)(v, l, r);
    }
    FirstsDeliver(results, signals, k);
  }

  lemma CommonIsShared(k: Kind, l: Signals, r: Signals)
    requires IsExact(k)
    ensures Common(Getter(k), l, r) == Shared(k, l, r)
  {}

  lemma SmallestIsWanted(signals: seq<Signals>, k: Kind, v: string, l: Signals, r: Signals)
    requires IsExact(k) && Smallest(signals, Getter(k), v, l, r)
    ensures Wanted(signals, k, Maker(k)(v, l, r))
  {
    CommonIsShared(k, l, r);
    assert PairCorrelation(k, l, r, ExactCorrelation(k, l, r, v));
  }

  lemma LeastShared(k: Kind, l: Signals, r: Signals, c: Correlation) returns (v: string)
    requires IsExact(k) && PairCorrelation(k, l, r, c)
    ensures IsLeast(v, Shared(k, l, r)) && c == ExactCorrelation(k, l, r, v)
  {
    v :| IsLeast(v, Shared(k, l, r)) && c == ExactCorrelation(k, l, r, v);
  }

  lemma WantedPair(signals: seq<Signals>, k: Kind, v: string, l: Signals, r: Signals)
    requires IsExact(k) && l in signals && r in signals && Before(l, r) && IsLeast(v, Shared(k, l, r))
    ensures Smallest(signals, Getter(k), v, l, r)
  {
    CommonIsShared(k, l, r);
  }

  // ----- pairwise matchers ---------------------------------------------------------------

  /** The first field in sorted order on which two items agree, when there is one. */
  function MetadataBlock(l: Signals, r: Signals): (block: seq<Correlation>)
    ensures forall c :: c in block <==> PairCorrelation(SharedMetadata, l, r, c)
  {
    var fields := SharedFields(l, r);
    if fields == {} then []
    else
      LeastUniqueAll(fields);
      [MetadataCorrelation(l, r, Least(fields))]
  }

  method MatchSharedMetadata(signals: seq<Signals>) returns (results: seq<Correlation>)
    requires DistinctIds(signals)
    ensures Delivers(results, signals, SharedMetadata)
  {
    ghost var p := (l: Signals, r: Signals, c: Correlation) => c in MetadataBlock(l, r);
    results := SweepPairs(ById(signals), MetadataBlock, p);
    SweepEnd(p, signals, ById(signals), results);
    SweepDelivers(results, signals, SharedMetadata);
  }

  function FilenameBlock(l: Signals, r: Signals): seq<(Signals, Signals, int)> {
    if SimilarNames(l, r) then [(l, r, FilenameSimilarity(l.filename, r.filename))] else []
  }

  method SimilarFilenamePairs(signals: seq<Signals>) returns (pairs: seq<(Signals, Signals, int)>)
    requires DistinctIds(signals)
    ensures forall l, r, s :: (l, r, s) in pairs <==>
              l in signals && r in signals && Before(l, r) && SimilarNames(l, r) && s == FilenameSimilarity(l.filename, r.filename)
    ensures Distinct(pairs)
  {
    ghost var p := (l: Signals, r: Signals, x: (Signals, Signals, int)) => x in FilenameBlock(l, r);
    SortedIsDistinct(signals, IdLe);
    pairs := SweepPairs(ById(signals), FilenameBlock, p);
    SweepEnd(p, signals, ById(signals), pairs);
  }

  method MatchFilenames(signals: seq<Signals>) returns (results: seq<Correlation>)
    requires DistinctIds(signals)
    ensures Delivers(results, signals, SimilarFilename)
  {
    results := [];
    var pairs := SimilarFilenamePairs(signals);
    for i := 0 to |pairs|
      invariant |results| == i
      invariant forall n :: 0 <= n < i ==> results[n] == FilenameCorrelation(pairs[n].0, pairs[n].1)
    {
      results := results + [FilenameCorrelation(pairs[i].0, pairs[i].1)];
    }
    FilenamesDeliver(signals, pairs, results);
  }

  lemma FilenamesDeliver(signals: seq<Signals>, pairs: seq<(Signals, Signals, int)>, results: seq<Correlation>)
    requires DistinctIds(signals)
    requires forall l, r, s :: (l, r, s) in pairs <==>
               l in signals && r in signals && Before(l, r) && SimilarNames(l, r) && s == FilenameSimilarity(l.filename, r.filename)
    requires |results| == |pairs|
    requires forall n :: 0 <= n < |pairs| ==> results[n] == FilenameCorrelation(pairs[n].0, pairs[n].1)
    ensures Delivers(results, signals, SimilarFilename)
  {
    forall c | c in results
      ensures exists l, r :: l in signals && r in signals && Before(l, r) && PairCorrelation(SimilarFilename, l, r, c)
    {
      var n :| 0 <= n < |results| && results[n] == c;
      var (l, r, s) := pairs[n];
      assert (l, r, s) in pairs;
      assert PairCorrelation(SimilarFilename, l, r, c);
    }
    forall l, r | l in signals && r in signals && Before(l, r) && SimilarNames(l, r)
      ensures FilenameCorrelation(l, r) in results
    {
      var x := (l, r, FilenameSimilarity(l.filename, r.filename));
      assert x in pairs;
      var n :| 0 <= n < |pairs| && pairs[n] == x;
      assert results[n] == FilenameCorrelation(l, r);
    }
    SweepDelivers(results, signals, SimilarFilename);
  }

  // ----- temporal overlap ----------------------------------------------------------------

  /** The pairs of events already looked at do not beat the pair at `(a, b)`. */
  ghost predicate BestSoFar(ls: seq<Event>, rs: seq<Event>, i: int, j: int, best: Option<Overlap>, a: nat, b: nat) {
    if best.None? then
      forall x, y :: 0 <= x < |ls| && 0 <= y < |rs| && (x < i || (x == i && y < j)) ==> !Overlaps(ls[x], rs[y])
    else
      && a < |ls| && b < |rs| && (a < i || (a == i && b < j)) && Overlaps(ls[a], rs[b])
      && best.value == Overlap(ls[a].id, rs[b].id, GapMs(ls[a], rs[b]))
      && forall x, y :: 0 <= x < |ls| && 0 <= y < |rs| && (x < i || (x == i && y < j)) && Overlaps(ls[x], rs[y]) ==>
           && GapMs(ls[a], rs[b]) <= GapMs(ls[x], rs[y])
           && (x < a || (x == a && y < b) ==> GapMs(ls[a], rs[b]) < GapMs(ls[x], rs[y]))
  }

  method FindTemporalOverlap(ls: seq<Event>, rs: seq<Event>) returns (best: Option<Overlap>)
    ensures best.None? <==> forall x, y :: 0 <= x < |ls| && 0 <= y < |rs| ==> !Overlaps(ls[x], rs[y])
    ensures best.Some? ==> IsOverlap(ls, rs, best.value)
    ensures Found(ls, rs, best)
  {
    best := None;
    ghost var a, b: nat := 0, 0;
    for i := 0 to |ls|
      invariant BestSoFar(ls, rs, i, 0, best, a, b)
    {
      if ls[i].at.Some? {
        for j := 0 to |rs|
          invariant BestSoFar(ls, rs, i, j, best, a, b)
        {
          if rs[j].at.Some? && Gap(ls[i], rs[j]) <= Window(ls[i], rs[j]) {
            var gapMs := Gap(ls[i], rs[j]) / 1000;
            if best.None? || gapMs < best.value.gapMs {
              best, a, b := Some(Overlap(ls[i].id, rs[j].id, gapMs)), i, j;
            }
          }
        }
      }
    }
    if best.Some? {
      assert IsBestOverlap(ls, rs, a, b);
    }
    SearchFinds(ls, rs, best);
  }

  ghost predicate OverlapRow(l: Signals, r: Signals, x: (Signals, Signals, Overlap)) {
    x == (l, r, x.2) && IsOverlap(l.events, r.events, x.2)
  }

  method OverlapBlock(l: Signals, r: Signals) returns (block: seq<(Signals, Signals, Overlap)>)
    ensures forall x :: x in block <==> OverlapRow(l, r, x)
  {
    block := [];
    var overlap := FindTemporalOverlap(l.events, r.events);
    if overlap.Some? {
      block := [(l, r, overlap.value)];
      forall o | IsOverlap(l.events, r.events, o) ensures o == overlap.value {
        OverlapUnique(l.events, r.events, o, overlap.value);
      }
    }
  }

  /** The best overlaps of all pairs that have one. */
  method FindOverlaps(signals: seq<Signals>, ghost p: (Signals, Signals, (Signals, Signals, Overlap)) -> bool)
    returns (overlaps: seq<(Signals, Signals, Overlap)>)
    requires DistinctIds(signals)
    requires forall l, r, x :: p(l, r, x) <==> OverlapRow(l, r, x)
    ensures Swept(p, ById(signals), |ById(signals)|, |ById(signals)| + 1, overlaps)
  {
    overlaps := [];
    var ordered := ById(signals);
    for i := 0 to |ordered|
      invariant Swept(p, ordered, i, i + 1, overlaps)
    {
      for j := i + 1 to |ordered|
        invariant Swept(p, ordered, i, j, overlaps)
      {
        var block := OverlapBlock(ordered[i], ordered[j]);
        SweepStep(p, ordered, i, j, overlaps, block);
        overlaps := overlaps + block;
      }
      SweepRow(p, ordered, i, overlaps);
    }
  }

  method MatchTemporal(signals: seq<Signals>) returns (results: seq<Correlation>)
    requires DistinctIds(signals)
    ensures Delivers(results, signals, TemporalOverlap)
  {
    results := [];
    ghost var p := (l: Signals, r: Signals, x: (Signals, Signals, Overlap)) => OverlapRow(l, r, x);
    var overlaps := FindOverlaps(signals, p);
    SweepEnd(p, signals, ById(signals), overlaps);
    for i := 0 to |overlaps|
      invariant |results| == i
      invariant forall n :: 0 <= n < i ==> results[n] == TemporalCorrelation(overlaps[n].0, overlaps[n].1, overlaps[n].2)
    {
      results := results + [TemporalCorrelation(overlaps[i].0, overlaps[i].1, overlaps[i].2)];
    }
    TemporalDelivers(signals, overlaps, results);
  }

  lemma TemporalDelivers(signals: seq<Signals>, overlaps: seq<(Signals, Signals, Overlap)>, results: seq<Correlation>)
    requires DistinctIds(signals)
    requires forall x :: x in overlaps <==> exists l, r :: l in signals && r in signals && Before(l, r) && OverlapRow(l, r, x)
    requires |results| == |overlaps|
    requires forall n :: 0 <= n < |overlaps| ==> results[n] == TemporalCorrelation(overlaps[n].0, overlaps[n].1, overlaps[n].2)
    ensures Delivers(results, signals, TemporalOverlap)
  {
    forall c | c in results
      ensures exists l, r :: l in signals && r in signals && Before(l, r) && PairCorrelation(TemporalOverlap, l, r, c)
    {
      var n :| 0 <= n < |results| && results[n] == c;
      var x := overlaps[n];
      assert x in overlaps;
      assert PairCorrelation(TemporalOverlap, x.0, x.1, c);
    }
    forall l, r, o | l in signals && r in signals && Before(l, r) && IsOverlap(l.events, r.events, o)
      ensures TemporalCorrelation(l, r, o) in results
    {
      var x := (l, r, o);
      assert OverlapRow(l, r, x) && x in overlaps;
      var n :| 0 <= n < |overlaps| && overlaps[n] == (l, r, o);
      assert results[n] == TemporalCorrelation(l, r, o);
    }
    SweepDelivers(results, signals, TemporalOverlap);
  }

  // ----- stored links --------------------------------------------------------------------

  function LinkKey(k: Kind, link: Link): string
    requires IsLink(k)
  {
    CorrelationKey(link.left, link.right, k)
  }

  /** `seen` holds the keys of the links `done`. */
  ghost predicate KeysOf(k: Kind, done: seq<Link>, seen: set<string>)
    requires IsLink(k)
  {
    forall key :: key in seen <==> exists n :: 0 <= n < |done| && key == LinkKey(k, done[n])
  }

  /** `results` are the first correlations of each pair among the links `done`. */
  ghost predicate FirstsOf(k: Kind, done: seq<Link>, results: seq<Correlation>)
    requires IsLink(k)
  {
    forall c :: c in results <==> exists n :: FirstLink(k, done, n, c)
  }

  lemma AddKey(k: Kind, done: seq<Link>, seen: set<string>, link: Link)
    requires IsLink(k) && KeysOf(k, done, seen)
    ensures KeysOf(k, done + [link], seen + {LinkKey(k, link)})
    ensures LinkKey(k, link) in seen <==>
              exists n :: 0 <= n < |done| && SamePair(done[n].left, done[n].right, link.left, link.right)
  {
    var all := done + [link];
    forall n | 0 <= n < |done|
      ensures LinkKey(k, done[n]) == LinkKey(k, link) <==> SamePair(done[n].left, done[n].right, link.left, link.right)
    {
      KeyInjective(done[n].left, done[n].right, k, link.left, link.right, k);
    }
    forall x | x in seen ensures exists n :: 0 <= n < |all| && x == LinkKey(k, all[n]) {
      var n :| 0 <= n < |done| && x == LinkKey(k, done[n]);
      assert all[n] == done[n];
    }
    assert all[|done|] == link;
  }

  lemma AddFirst(k: Kind, done: seq<Link>, results: seq<Correlation>, link: Link, again: bool)
    requires IsLink(k) && FirstsOf(k, done, results)
    requires again <==> exists n :: 0 <= n < |done| && SamePair(done[n].left, done[n].right, link.left, link.right)
    ensures FirstsOf(k, done + [link], if again then results else results + [LinkCorrelation(k, link)])
  {
    var all := done + [link];
    forall n, c | FirstLink(k, all, n, c) ensures FirstLink(k, done, n, c) || (!again && c == LinkCorrelation(k, link)) {
      if n < |done| {
        assert all[n] == done[n];
        forall m | 0 <= m < n ensures !SamePair(done[m].left, done[m].right, done[n].left, done[n].right) {
          assert all[m] == done[m];
        }
      } else {
        assert all[n] == link;
        forall m | 0 <= m < |done| ensures !SamePair(done[m].left, done[m].right, link.left, link.right) {
          assert all[m] == done[m];
        }
      }
    }
    forall n, c | FirstLink(k, done, n, c) ensures FirstLink(k, all, n, c) {}
    if !again {
      assert FirstLink(k, all, |done|, LinkCorrelation(k, link));
    }
  }

  lemma LinksOfStep(before: seq<Link>, id: Uuid, matches: seq<Match>, j: nat)
    requires j < |matches|
    ensures before + LinksOf(id, matches[..j + 1])
         == before + LinksOf(id, matches[..j]) + [Link(id, matches[j].other, matches[j].support)]
  {}

  method MatchLinksOf(k: Kind, ghost before: seq<Link>, id: Uuid, matches: seq<Match>, seen0: set<string>, results0: seq<Correlation>)
    returns (seen: set<string>, results: seq<Correlation>)
    requires IsLink(k) && KeysOf(k, before, seen0) && FirstsOf(k, before, results0)
    ensures KeysOf(k, before + LinksOf(id, matches), seen) && FirstsOf(k, before + LinksOf(id, matches), results)
  {
    seen, results := seen0, results0;
    assert before + LinksOf(id, matches[..0]) == before;
    for j := 0 to |matches|
      invariant KeysOf(k, before + LinksOf(id, matches[..j]), seen)
      invariant FirstsOf(k, before + LinksOf(id, matches[..j]), results)
    {
      var link := Link(id, matches[j].other, matches[j].support);
      var key := LinkKey(k, link);
      ghost var done := before + LinksOf(id, matches[..j]);
      AddKey(k, done, seen, link);
      AddFirst(k, done, results, link, key in seen);
      LinksOfStep(before, id, matches, j);
      if key !in seen {
        results := results + [LinkCorrelation(k, link)];
      }
      seen := seen + {key};
    }
    assert matches[..|matches|] == matches;
  }

  method MatchLinks(signals: seq<Signals>, k: Kind) returns (results: seq<Correlation>)
    requires IsLink(k) && DistinctIds(signals)
    ensures Delivers(results, signals, k)
  {
    results := [];
    var seen: set<string> := {};
    for i := 0 to |signals|
      invariant KeysOf(k, Links(k, signals[..i]), seen) && FirstsOf(k, Links(k, signals[..i]), results)
    {
      assert signals[..i + 1][..i] == signals[..i];
      seen, results := MatchLinksOf(k, Links(k, signals[..i]), signals[i].id, Matches(k, signals[i]), seen, results);
    }
    assert signals[..|signals|] == signals;
    forall c | c in results ensures OfKind(c, k) {
      WantedOfKind(signals, k, c);
    }
    forall i, c | FirstIn(results, i, c) ensures Wanted(signals, k, c) {
      assert c in results;
    }
    FirstsDeliver(results, signals, k);
  }
}
