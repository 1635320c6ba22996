/** Conflict detection (backend/app/case_intelligence/consistency.py and conflicts.py): the steps
    as they are taken, and what the list they leave means. */
module CaseConflicts {
  import opened Bags
  import opened CaseModel
  import opened Dedup
  import opened Numbers
  import opened Sorting

  // ----- the steps -----------------------------------------------------------------------

  method MetadataTimestampConflicts(items: seq<Participation>) returns (conflicts: seq<Conflict>)
    ensures conflicts == TemporalConflicts(items)
  {
    var rows: seq<Participation> := [];
    for i := 0 to |items|
      invariant rows == Keep(items[..i], Completed)
    {
      KeepNext(items, i, Completed);
      if items[i].completedAt.Some? {
        rows := rows + [items[i]];
      }
    }
    assert items[..|items|] == items;
    SortedIsPermutation(rows, EarlierOrSame);
    if |rows| < 2 {
      return [];
    }
    rows := Sorted(rows, EarlierOrSame);
    var earliest, latest := rows[0], rows[|rows| - 1];
    SortedIsAscending(Keep(items, Completed), EarlierOrSame);
    assert EarlierOrSame(earliest, latest);
    var delta := CompletedAt(latest) - CompletedAt(earliest);
    if (if delta >= 0 then delta else -delta) <= DAY {
      return [];
    }
    return [TemporalConflict(earliest, latest)];
  }

  method HashesByEvidence(custody: seq<CustodyEvent>) returns (hashes: map<Uuid, set<string>>)
    ensures forall id :: (if id in hashes then hashes[id] else {}) == CustodyHashes(custody, id)
  {
    hashes := map[];
    for i := 0 to |custody|
      invariant forall id :: (if id in hashes then hashes[id] else {}) == CustodyHashes(custody[..i], id)
    {
      var event := custody[i];
      forall id ensures CustodyHashes(custody[..i + 1], id) ==
                        CustodyHashes(custody[..i], id) + if event.owner == id && event.digest.Some? then {event.digest.value} else {} {
        assert custody[..i + 1] == custody[..i] + [event];
      }
      if event.digest.Some? {
        var known := if event.owner in hashes then hashes[event.owner] else {};
        hashes := hashes[event.owner := known + {event.digest.value}];
      }
    }
    assert custody[..|custody|] == custody;
  }

  method CustodyProvenanceConflicts(items: seq<Participation>, custody: seq<CustodyEvent>) returns (conflicts: seq<Conflict>)
    ensures conflicts == ProvenanceConflicts(items, custody)
  {
    ghost var p := (item: Participation) => Mismatched(custody, item);
    var hashesByEvidence := HashesByEvidence(custody);
    conflicts := [];
    for i := 0 to |items|
      invariant conflicts == Each(Keep(items[..i], p), ProvenanceConflict)
    {
      KeepNext(items, i, p);
      var hashes := if items[i].id in hashesByEvidence then hashesByEvidence[items[i].id] else {};
      assert hashes == CustodyHashes(custody, items[i].id);
      if hashes == {} {
        continue;
      }
      if items[i].hash !in hashes {
        conflicts := conflicts + [ProvenanceConflict(items[i])];
      }
    }
    assert items[..|items|] == items;
  }

  method AnalyzeConsistency(items: seq<Participation>, custody: seq<CustodyEvent>) returns (conflicts: seq<Conflict>)
    ensures conflicts == Consistency(items, custody)
  {
    var temporal := MetadataTimestampConflicts(items);
    var provenance := CustodyProvenanceConflicts(items, custody);
    return temporal + provenance;
  }

  method RaiseContradictions(items: seq<Participation>, before: seq<Conflict>) returns (raised: seq<Conflict>)
    ensures raised == before + ContradictionConflicts(items)
  {
    raised := before;
    for i := 0 to |items|
      invariant raised == before + Each(Keep(items[..i], Contradicted), ContradictionConflict)
    {
      KeepNext(items, i, Contradicted);
      if items[i].contradicting != [] && IsSuspicious(items[i]) {
        raised := raised + [ContradictionConflict(items[i])];
      }
    }
    assert items[..|items|] == items;
  }

  method RaiseDisagreements(items: seq<Participation>, before: seq<Conflict>) returns (raised: seq<Conflict>)
    ensures raised == before + VerdictConflicts(items) + ConfidenceConflicts(items)
  {
    raised := before;
    var suspicious := Each(Keep(items, IsSuspicious), IdOf);
    var genuine := Each(Keep(items, IsGenuine), IdOf);
    if suspicious != [] && genuine != [] {
      raised := raised + [Conflict(VerdictDisagreement(SortedIds(suspicious)), SortedIds(suspicious + genuine), Flat(items), High)];
    }
    var rows := Keep(items, HasConfidence);
    if |rows| >= 2 {
      var values := Each(rows, ConfidenceOf);
      var spread := Largest(values) - Smallest(values);
      if spread >= 0.4 {
        raised := raised + [Conflict(ConfidenceDisagreement, Each(rows, IdOf), [], Medium)];
      }
    }
  }

  method DetectCaseConflicts(items: seq<Participation>, consistency: seq<Conflict>) returns (conflicts: seq<Conflict>)
    ensures IsUnique(Raised(items, consistency), ConflictId, conflicts)
  {
    var raised := RaiseDisagreements(items, consistency);
    raised := RaiseContradictions(items, raised);
    conflicts := Deduplicate(raised, ConflictId);
  }

  // ----- when each kind is raised --------------------------------------------------------

  ghost predicate FarApart(x: Participation, y: Participation) {
    Completed(x) && Completed(y) && CompletedAt(y) - CompletedAt(x) > 86_400_000_000
  }

  /** Two items whose analyses ended more than a day apart. */
  ghost predicate SomeFarApart(items: seq<Participation>) {
    exists x, y :: x in items && y in items && FarApart(x, y)
  }

  ghost predicate Diverge(x: Participation, y: Participation) {
    HasConfidence(x) && HasConfidence(y) && ConfidenceOf(y) - ConfidenceOf(x) >= 0.4
  }

  /** Two items whose confidences are at least 0.4 apart. */
  ghost predicate SomeDiverge(items: seq<Participation>) {
    exists x, y :: x in items && y in items && Diverge(x, y)
  }

  /** A suspicious item next to a genuine one. */
  ghost predicate SomeDisagree(items: seq<Participation>) {
    exists x, y :: x in items && y in items && IsSuspicious(x) && IsGenuine(y)
  }

  lemma SortedByTime(rows: seq<Participation>)
    ensures Ascending(Sorted(rows, EarlierOrSame), EarlierOrSame)
    ensures |Sorted(rows, EarlierOrSame)| == |rows|
    ensures forall x :: x in Sorted(rows, EarlierOrSame) <==> x in rows
  {
    SortedIsAscending(rows, EarlierOrSame);
    SortedIsPermutation(rows, EarlierOrSame);
  }

  /** Comparing only the first and the last row in the order of time misses nothing. */
  lemma ExtremesSuffice(rows: seq<Participation>, x: Participation, y: Participation)
    requires Ascending(rows, EarlierOrSame) && x in rows && y in rows
    ensures CompletedAt(y) - CompletedAt(x) <= CompletedAt(rows[|rows| - 1]) - CompletedAt(rows[0])
  {
    var i :| 0 <= i < |rows| && rows[i] == x;
    var j :| 0 <= j < |rows| && rows[j] == y;
    assert i > 0 ==> EarlierOrSame(rows[0], rows[i]);
    assert j < |rows| - 1 ==> EarlierOrSame(rows[j], rows[|rows| - 1]);
  }

  lemma CompletedRows(items: seq<Participation>)
    ensures var rows := Sorted(Keep(items, Completed), EarlierOrSame);
            Ascending(rows, EarlierOrSame) && forall x :: x in rows <==> x in items && Completed(x)
  {
    KeepMembers(items, Completed);
    SortedByTime(Keep(items, Completed));
  }

  lemma OneDay()
    ensures DAY == 86_400_000_000
  {}

  lemma RaisedFarApart(items: seq<Participation>)
    requires TemporalConflicts(items) != []
    ensures SomeFarApart(items)
  {
    var rows := Sorted(Keep(items, Completed), EarlierOrSame);
    CompletedRows(items);
    OneDay();
    assert rows[0] in rows && rows[|rows| - 1] in rows;
    assert FarApart(rows[0], rows[|rows| - 1]);
  }

  lemma FarApartRaises(items: seq<Participation>, x: Participation, y: Participation)
    requires x in items && y in items && FarApart(x, y)
    ensures TemporalConflicts(items) != []
  {
    CompletedRows(items);
    OneDay();
    ExtremesSuffice(Sorted(Keep(items, Completed), EarlierOrSame), x, y);
  }

  lemma TemporalMeaning(items: seq<Participation>)
    ensures TemporalConflicts(items) != [] <==> SomeFarApart(items)
    ensures |TemporalConflicts(items)| <= 1
  {
    if TemporalConflicts(items) != [] {
      RaisedFarApart(items);
    }
    if SomeFarApart(items) {
      var x, y :| x in items && y in items && FarApart(x, y);
      FarApartRaises(items, x, y);
    }
  }

  lemma SpreadMeaning(values: seq<real>)
    requires values != []
    ensures Largest(values) - Smallest(values) >= 0.4 <==> exists x, y :: x in values && y in values && y - x >= 0.4
  {
    if Largest(values) - Smallest(values) >= 0.4 {
      assert Smallest(values) in values && Largest(values) in values;
    }
  }

  lemma ConfidenceRows(items: seq<Participation>)
    ensures forall v :: v in Each(Keep(items, HasConfidence), ConfidenceOf) <==>
              exists x :: x in items && HasConfidence(x) && ConfidenceOf(x) == v
  {
    KeepMembers(items, HasConfidence);
    var rows := Keep(items, HasConfidence);
    forall x | x in items && HasConfidence(x) ensures ConfidenceOf(x) in Each(rows, ConfidenceOf) {
      assert x in rows;
      var i :| 0 <= i < |rows| && rows[i] == x;
      assert Each(rows, ConfidenceOf)[i] == ConfidenceOf(x);
    }
    forall v | v in Each(rows, ConfidenceOf) ensures exists x :: x in items && HasConfidence(x) && ConfidenceOf(x) == v {
      var i :| 0 <= i < |rows| && Each(rows, ConfidenceOf)[i] == v;
      assert rows[i] in rows;
    }
  }

  lemma ConfidenceMeaning(items: seq<Participation>)
    ensures ConfidenceConflicts(items) != [] <==> SomeDiverge(items)
  {
    var values := Each(Keep(items, HasConfidence), ConfidenceOf);
    ConfidenceRows(items);
    if values != [] {
      SpreadMeaning(values);
    }
    if ConfidenceConflicts(items) != [] {
      var v, w :| v in values && w in values && w - v >= 0.4;
      var x :| x in items && HasConfidence(x) && ConfidenceOf(x) == v;
      var y :| y in items && HasConfidence(y) && ConfidenceOf(y) == w;
      assert Diverge(x, y);
    }
    if SomeDiverge(items) {
      var x, y :| x in items && y in items && Diverge(x, y);
      assert ConfidenceOf(x) in values && ConfidenceOf(y) in values;
      assert |values| != 1;
    }
  }

  lemma VerdictMeaning(items: seq<Participation>)
    ensures VerdictConflicts(items) != [] <==> SomeDisagree(items)
  {
    CountPositive(items, IsSuspicious);
    CountPositive(items, IsGenuine);
    assert |Each(Keep(items, IsSuspicious), IdOf)| == Count(items, IsSuspicious);
    assert |Each(Keep(items, IsGenuine), IdOf)| == Count(items, IsGenuine);
  }

  // ----- counting what is left -----------------------------------------------------------

  /** Identifiers of the items with some property. */
  function Owners(items: seq<Participation>, p: Participation -> bool): set<string> {
    set x | x in items && p(x) :: x.id
  }

  function MismatchedIds(items: seq<Participation>, custody: seq<CustodyEvent>): set<string> {
    Owners(items, item => Mismatched(custody, item))
  }

  function ContradictedIds(items: seq<Participation>): set<string> { Owners(items, Contradicted) }

  /** Number of conflicts left after deduplication. */
  function ConflictCount(items: seq<Participation>, custody: seq<CustodyEvent>): nat {
    |Ids(Raised(items, Consistency(items, custody)), ConflictId)|
  }

  lemma EachIds(items: seq<Participation>, p: Participation -> bool, make: Participation -> Conflict, prefix: string)
    requires forall x :: ConflictId(make(x)) == prefix + x.id
    ensures Ids(Each(Keep(items, p), make), ConflictId) == Prefixed(Owners(items, p), prefix)
  {
    KeepMembers(items, p);
    var rows := Keep(items, p);
    var made := Each(rows, make);
    forall key | key in Ids(made, ConflictId) ensures key in Prefixed(Owners(items, p), prefix) {
      var i :| 0 <= i < |made| && ConflictId(made[i]) == key;
      assert rows[i] in rows;
      assert rows[i].id in Owners(items, p);
    }
    forall key | key in Prefixed(Owners(items, p), prefix) ensures key in Ids(made, ConflictId) {
      var x :| x in Owners(items, p) && key == prefix + x;
      var y :| y in items && p(y) && y.id == x;
      assert y in rows;
      var i :| 0 <= i < |rows| && rows[i] == y;
      assert ConflictId(made[i]) == key;
    }
  }

  lemma IdsOfBoth(xs: seq<Conflict>, ys: seq<Conflict>)
    ensures Ids(xs + ys, ConflictId) == Ids(xs, ConflictId) + Ids(ys, ConflictId)
  {
    var both := xs + ys;
    forall key | key in Ids(xs, ConflictId) + Ids(ys, ConflictId) ensures key in Ids(both, ConflictId) {
      if key in Ids(xs, ConflictId) {
        var i :| 0 <= i < |xs| && ConflictId(xs[i]) == key;
        assert ConflictId(both[i]) == key;
      } else {
        var i :| 0 <= i < |ys| && ConflictId(ys[i]) == key;
        assert ConflictId(both[|xs| + i]) == key;
      }
    }
    forall key | key in Ids(both, ConflictId) ensures key in Ids(xs, ConflictId) + Ids(ys, ConflictId) {
      var i :| 0 <= i < |both| && ConflictId(both[i]) == key;
      if i < |xs| {
        assert ConflictId(xs[i]) == key;
      } else {
        assert ConflictId(ys[i - |xs|]) == key;
      }
    }
  }

  ghost predicate StartWith(keys: set<string>, mark: char) {
    forall key :: key in keys ==> key != "" && key[0] == mark
  }

  lemma DisjointSize(a: set<string>, b: set<string>)
    requires a !! b
    ensures |a + b| == |a| + |b|
  {}

  lemma FiveSizes(t: set<string>, p: set<string>, v: set<string>, c: set<string>, f: set<string>)
    requires StartWith(t, 't') && StartWith(p, 'p') && StartWith(v, 'v') && StartWith(c, 'c') && StartWith(f, 'f')
    ensures |t + p + v + c + f| == |t| + |p| + |v| + |c| + |f|
  {
    DisjointSize(t, p);
    DisjointSize(t + p, v);
    DisjointSize(t + p + v, c);
    DisjointSize(t + p + v + c, f);
  }

  function One(b: bool): nat { if b then 1 else 0 }

  /** Identifiers of different kinds differ in their first letter. */
  function Mark(tag: Label): char {
    match tag
    case TemporalInconsistency(_, _) => 't'
    case ProvenanceInconsistency(_) => 'p'
    case VerdictDisagreement(_) => 'v'
    case ConfidenceDisagreement => 'c'
    case ForensicContradiction(_) => 'f'
  }

  lemma MarkOf(tag: Label)
    ensures LabelText(tag) != "" && LabelText(tag)[0] == Mark(tag)
  {}

  lemma SingleBlock(conflicts: seq<Conflict>, mark: char)
    requires |conflicts| <= 1 && forall c :: c in conflicts ==> Mark(c.tag) == mark
    ensures |Ids(conflicts, ConflictId)| == |conflicts| && StartWith(Ids(conflicts, ConflictId), mark)
  {
    if |conflicts| == 1 {
      assert Ids(conflicts, ConflictId) == {ConflictId(conflicts[0])};
      assert conflicts[0] in conflicts;
      MarkOf(conflicts[0].tag);
    } else {
      assert Ids(conflicts, ConflictId) == {};
    }
  }

  lemma PrefixedBlock(items: seq<Participation>, p: Participation -> bool, make: Participation -> Conflict, prefix: string)
    requires prefix != "" && forall x :: ConflictId(make(x)) == prefix + x.id
    ensures var keys := Ids(Each(Keep(items, p), make), ConflictId);
            |keys| == |Owners(items, p)| && StartWith(keys, prefix[0])
  {
    EachIds(items, p, make, prefix);
    PrefixedSize(Owners(items, p), prefix);
  }

  lemma ProvenanceBlock(items: seq<Participation>, custody: seq<CustodyEvent>)
    ensures var p := Ids(ProvenanceConflicts(items, custody), ConflictId);
            |p| == |MismatchedIds(items, custody)| && StartWith(p, 'p')
  {
    PrefixedBlock(items, item => Mismatched(custody, item), ProvenanceConflict, "provenance:");
  }

  lemma ContradictionBlock(items: seq<Participation>)
    ensures var f := Ids(ContradictionConflicts(items), ConflictId);
            |f| == |ContradictedIds(items)| && StartWith(f, 'f')
  {
    PrefixedBlock(items, Contradicted, ContradictionConflict, "forensic_contradiction:");
  }

  lemma TemporalBlock(items: seq<Participation>)
    ensures var t := Ids(TemporalConflicts(items), ConflictId); |t| == One(SomeFarApart(items)) && StartWith(t, 't')
  {
    TemporalMeaning(items);
    SingleBlock(TemporalConflicts(items), 't');
  }

  lemma VerdictBlock(items: seq<Participation>)
    ensures var v := Ids(VerdictConflicts(items), ConflictId); |v| == One(SomeDisagree(items)) && StartWith(v, 'v')
  {
    VerdictMeaning(items);
    SingleBlock(VerdictConflicts(items), 'v');
  }

  lemma ConfidenceBlock(items: seq<Participation>)
    ensures var c := Ids(ConfidenceConflicts(items), ConflictId); |c| == One(SomeDiverge(items)) && StartWith(c, 'c')
  {
    ConfidenceMeaning(items);
    SingleBlock(ConfidenceConflicts(items), 'c');
  }

  lemma RaisedIds(items: seq<Participation>, custody: seq<CustodyEvent>)
    ensures Ids(Raised(items, Consistency(items, custody)), ConflictId) ==
            Ids(TemporalConflicts(items), ConflictId) + Ids(ProvenanceConflicts(items, custody), ConflictId)
            + Ids(VerdictConflicts(items), ConflictId) + Ids(ConfidenceConflicts(items), ConflictId)
            + Ids(ContradictionConflicts(items), ConflictId)
  {
    var t, p := TemporalConflicts(items), ProvenanceConflicts(items, custody);
    var v, c, f := VerdictConflicts(items), ConfidenceConflicts(items), ContradictionConflicts(items);
    IdsOfBoth(t, p);
    IdsOfBoth(t + p, v);
    IdsOfBoth(t + p + v, c);
    IdsOfBoth(t + p + v + c, f);
  }

  /** The number of conflicts, counted without any list: at most one each for diverging times,
      verdicts and confidences, and one per item with a broken custody record or contradicted
      findings. */
  lemma CountParts(items: seq<Participation>, custody: seq<CustodyEvent>)
    ensures ConflictCount(items, custody) ==
            One(SomeFarApart(items)) + One(SomeDisagree(items)) + One(SomeDiverge(items))
            + |MismatchedIds(items, custody)| + |ContradictedIds(items)|
  {
    RaisedIds(items, custody);
    TemporalBlock(items);
    VerdictBlock(items);
    ConfidenceBlock(items);
    ProvenanceBlock(items, custody);
    ContradictionBlock(items);
    FiveSizes(Ids(TemporalConflicts(items), ConflictId), Ids(ProvenanceConflicts(items, custody), ConflictId),
              Ids(VerdictConflicts(items), ConflictId), Ids(ConfidenceConflicts(items), ConflictId),
              Ids(ContradictionConflicts(items), ConflictId));
  }

  lemma SubsetSize(a: set<string>, b: set<string>)
    requires a <= b
    ensures |a| <= |b|
  {
    assert b == a + (b - a);
  }

  /** More evidence never means fewer conflicts. */
  lemma ConflictsGrow(fewer: seq<Participation>, more: seq<Participation>, custody: seq<CustodyEvent>)
    requires forall x :: x in fewer ==> x in more
    ensures ConflictCount(fewer, custody) <= ConflictCount(more, custody)
  {
    CountParts(fewer, custody);
    CountParts(more, custody);
    SubsetSize(MismatchedIds(fewer, custody), MismatchedIds(more, custody));
    SubsetSize(ContradictedIds(fewer), ContradictedIds(more));
  }

  /** The final list has that many entries, whatever the order in which they were raised. */
  lemma ConflictsCounted(items: seq<Participation>, custody: seq<CustodyEvent>, conflicts: seq<Conflict>)
    requires IsUnique(Raised(items, Consistency(items, custody)), ConflictId, conflicts)
    ensures |conflicts| == ConflictCount(items, custody)
  {
    UniqueSize(Raised(items, Consistency(items, custody)), ConflictId, conflicts);
  }
}
