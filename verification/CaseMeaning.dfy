/** What an assessment says about the evidence, in numbers and in the terms of the items alone
    (backend/app/case_intelligence/policy.py:133-200 and conflicts.py). */
module CaseMeaning {
  import opened Bags
  import opened CaseCollection
  import opened CaseConflicts
  import opened CaseModel
  import opened CasePolicy
  import opened Dedup
  import opened Options
  import opened Rounding
  import opened Sorting
  import opened Text

  // ----- risk ----------------------------------------------------------------------------

  /** Suspicious or worse, with a known risk. */
  predicate Counts(item: Participation) { (item.verdict == Some(Suspicious) || item.verdict == Some(PotentialFraud)) && item.risk.Some? }

  /** What an item brings in: its risk times its confidence, or half its risk when the confidence is
      missing or zero. */
  function Share(item: Participation): real
    requires item.risk.Some?
  {
    match item.confidence
    case None => item.risk.value / 2.0
    case Some(c) => if c == 0.0 then item.risk.value / 2.0 else item.risk.value * c
  }

  function Counted(items: seq<Participation>): nat {
    if items == [] then 0 else (if Counts(items[0]) then 1 else 0) + Counted(items[1..])
  }

  function Shares(items: seq<Participation>): real {
    if items == [] then 0.0 else (if Counts(items[0]) then Share(items[0]) else 0.0) + Shares(items[1..])
  }

  /** The points of `n` items of mean share `w`: raised by a fifth for two items and by two fifths
      for more, less fifteen for one conflict and thirty for more, and kept between 0 and 100. */
  function Points(w: real, n: nat, conflicts: nat): real
    requires n > 0
  {
    var raised := if n == 1 then w else if n == 2 then w * 6.0 / 5.0 else w * 7.0 / 5.0;
    var left := raised - (if conflicts == 0 then 0.0 else if conflicts == 1 then 15.0 else 30.0);
    if left < 0.0 then 0.0 else if left > 100.0 then 100.0 else left
  }

  lemma {:induction false} SharesAre(items: seq<Participation>)
    ensures Counted(items) == Count(items, IsScored) && Shares(items) == Total(Keep(items, IsScored), Weight)
  {
    if items != [] {
      var x, rest := items[0], items[1..];
      SharesAre(rest);
      assert Counts(x) <==> IsScored(x);
      if IsScored(x) {
        assert Weight(x) == Share(x);
        TotalSplit([x], Keep(rest, IsScored), Weight);
        TotalOne(x, Weight);
      } else {
        assert [] + Keep(rest, IsScored) == Keep(rest, IsScored);
      }
    } else {
      assert Keep(items, IsScored) == [];
    }
  }

  lemma PointsAre(w: real, n: nat, conflicts: nat)
    requires n > 0
    ensures Clamped(w, n, conflicts) == Points(w, n, conflicts)
  {
    var m := Multiplier(n);
    assert m == if n == 1 then 1.0 else if n == 2 then 1.2 else 1.4;
    var p := Penalty(conflicts);
    assert p * 100.0 == if conflicts == 0 then 0.0 else if conflicts == 1 then 15.0 else 30.0;
    assert w * m == if n == 1 then w else if n == 2 then w * 6.0 / 5.0 else w * 7.0 / 5.0;
  }

  /** The risk of a case, in hundredths of a point. */
  lemma RiskInPoints(items: seq<Participation>, conflicts: nat)
    ensures var n := Counted(items);
            CaseRisk(items, conflicts) ==
              if n == 0 then None else Some(RoundHalfEven(100.0 * Points(Shares(items) / n as real, n, conflicts)))
  {
    SharesAre(items);
    if Counted(items) > 0 {
      PointsAre(Shares(items) / Counted(items) as real, Counted(items), conflicts);
    }
  }

  lemma {:induction false} OneMore(items: seq<Participation>, item: Participation)
    requires Counts(item)
    ensures Counted(items + [item]) == Counted(items) + 1 && Shares(items + [item]) == Shares(items) + Share(item)
  {
    if items == [] {
      assert items + [item] == [item] && [item][1..] == [];
    } else {
      OneMore(items[1..], item);
      assert (items + [item])[1..] == items[1..] + [item];
    }
  }

  lemma Uncapped(w: real)
    requires 0.0 <= w && w * 6.0 / 5.0 <= 100.0
    ensures Points(w, 1, 0) == w && 100.0 * Points(w, 2, 0) == 120.0 * w
  {}

  lemma RiskOf(items: seq<Participation>, n: nat, w: real)
    requires n > 0 && Counted(items) == n && Shares(items) / n as real == w
    ensures CaseRisk(items, 0) == Some(RoundHalfEven(100.0 * Points(w, n, 0)))
  {
    RiskInPoints(items, 0);
  }

  lemma Average(w: real)
    ensures w / 1 as real == w && (w + w) / 2 as real == w
  {}

  /** Without conflicts, a second suspect of the same weight raises the risk by one fifth, as long as
      that stays within 100 points. */
  lemma SecondSuspect(items: seq<Participation>, item: Participation)
    requires Counted(items) == 1 && Counts(item) && Share(item) == Shares(items) && 0.0 <= Share(item) && Share(item) * 6.0 / 5.0 <= 100.0
    ensures CaseRisk(items, 0) == Some(RoundHalfEven(100.0 * Share(item)))
    ensures CaseRisk(items + [item], 0) == Some(RoundHalfEven(120.0 * Share(item)))
  {
    var w := Share(item);
    OneMore(items, item);
    Average(w);
    Uncapped(w);
    RiskOf(items, 1, w);
    RiskOf(items + [item], 2, w);
  }

  // ----- confidence ----------------------------------------------------------------------

  function Certain(items: seq<Participation>): nat {
    if items == [] then 0 else (if items[0].status == Analyzed && items[0].confidence.Some? then 1 else 0) + Certain(items[1..])
  }

  function Certainty(items: seq<Participation>): real {
    if items == [] then 0.0
    else (if items[0].status == Analyzed && items[0].confidence.Some? then items[0].confidence.value else 0.0) + Certainty(items[1..])
  }

  lemma {:induction false} CertaintyIs(items: seq<Participation>)
    ensures Certain(items) == Count(items, IsConfident) && Certainty(items) == Total(Keep(items, IsConfident), ConfidenceOf)
  {
    if items != [] {
      var x, rest := items[0], items[1..];
      CertaintyIs(rest);
      if IsConfident(x) {
        TotalSplit([x], Keep(rest, IsConfident), ConfidenceOf);
        TotalOne(x, ConfidenceOf);
      } else {
        assert [] + Keep(rest, IsConfident) == Keep(rest, IsConfident);
      }
    } else {
      assert Keep(items, IsConfident) == [];
    }
  }

  /** The case confidence is the mean of the known confidences of analysed items, to the nearest
      ten-thousandth. */
  lemma ConfidenceIsMean(items: seq<Participation>)
    ensures var n := Certain(items);
            CaseConfidence(items) == if n == 0 then None else Some(RoundHalfEven(10000.0 * (Certainty(items) / n as real)))
  {
    CertaintyIs(items);
  }

  // ----- verdicts ------------------------------------------------------------------------

  /** The evidence is insufficient exactly when no item has a verdict. */
  lemma InsufficientCharacterized(items: seq<Participation>, conflicts: nat)
    ensures CaseVerdict(items, conflicts) == Verdict.InsufficientEvidence <==> !Includes(items, HasVerdict)
  {
    VerdictCounts(items);
  }

  /** The case is unavailable exactly when some item has a verdict, but all items are unavailable. */
  lemma UnavailableCharacterized(items: seq<Participation>, conflicts: nat)
    ensures CaseVerdict(items, conflicts) == Verdict.Unavailable <==> Includes(items, HasVerdict) && !Includes(items, IsReachable)
  {
    VerdictCounts(items);
  }

  ghost predicate TwoAre(items: seq<Participation>, p: Participation -> bool) {
    exists i, j :: 0 <= i < j < |items| && p(items[i]) && p(items[j])
  }

  /** The case is inconclusive exactly when some item has a verdict, not all are unavailable, none is
      fraud, and either just one is suspicious next to a genuine one, or none is suspicious and what
      is genuine, if anything, meets a conflict. */
  lemma InconclusiveCharacterized(items: seq<Participation>, conflicts: nat)
    ensures CaseVerdict(items, conflicts) == Verdict.Inconclusive <==>
              && Includes(items, HasVerdict) && Includes(items, IsReachable) && !Includes(items, IsFraud)
              && (if Includes(items, IsMerelySuspicious) then Includes(items, IsGenuine) && !TwoAre(items, IsMerelySuspicious)
                  else Includes(items, IsGenuine) ==> conflicts > 0)
  {
    VerdictCounts(items);
    CountTwo(items, IsMerelySuspicious);
  }

  predicate EndedUnavailable(row: Row) {
    row.fusion.Some? && !row.fusion.value.status.Failed? && row.fusion.value.verdict == Some(Verdict.Unavailable)
  }

  /** A collected case is unavailable exactly when there are rows, and the analysis of each ended as
      unavailable without having failed. */
  lemma CollectedUnavailable(rows: seq<Row>, conflicts: nat)
    requires AllStored(rows)
    ensures CaseVerdict(Collected(rows), conflicts) == Verdict.Unavailable <==>
              rows != [] && forall row :: row in rows ==> EndedUnavailable(row)
  {
    var items := Collected(rows);
    UnavailableCharacterized(items, conflicts);
    forall i | 0 <= i < |rows| ensures !IsReachable(items[i]) <==> EndedUnavailable(rows[i]) {
      assert rows[i] in rows && items[i] == Participate(rows[i]);
    }
    if Includes(items, IsReachable) {
      var item :| item in items && IsReachable(item);
      var i :| 0 <= i < |items| && items[i] == item;
      assert rows[i] in rows && !EndedUnavailable(rows[i]);
    } else if rows != [] {
      assert items[0] in items && !IsReachable(items[0]);
      assert EndedUnavailable(rows[0]) && items[0] == Participate(rows[0]);
      assert HasVerdict(items[0]);
    }
    forall row | row in rows && !EndedUnavailable(row) ensures Includes(items, IsReachable) {
      var i :| 0 <= i < |rows| && rows[i] == row;
      assert items[i] in items && IsReachable(items[i]);
    }
  }

  /** How a row is counted: as analysed exactly when its run did not fail and reached one of the three
      verdicts that decide something. */
  lemma CollectedAnalyzed(row: Row)
    requires row.fusion.Some? ==> IsStored(row.fusion.value)
    ensures Participate(row).status == Analyzed <==>
              && row.fusion.Some? && !row.fusion.value.status.Failed?
              && row.fusion.value.verdict in {Some(Genuine), Some(Suspicious), Some(PotentialFraud)}
    ensures Participate(row).status == Status.Failed <==> row.fusion.Some? && row.fusion.value.status.Failed?
    ensures Participate(row).status == NotAnalyzed <==>
              row.fusion.None? || (!row.fusion.value.status.Failed? && row.fusion.value.verdict.None?)
  {}

  // ----- conflicts -----------------------------------------------------------------------

  /** What a conflict says, by its kind. */
  ghost predicate Says(c: Conflict, items: seq<Participation>, custody: seq<CustodyEvent>) {
    match c.tag
    case TemporalInconsistency(earliest, latest) =>
      exists x, y :: x in items && y in items && x.id == earliest && y.id == latest && FarApart(x, y)
                     && (forall z :: z in items && Completed(z) ==> CompletedAt(x) <= CompletedAt(z) <= CompletedAt(y))
                     && c.evidence == [earliest, latest] && c.severity == Medium
    case ProvenanceInconsistency(owner) =>
      exists x :: x in items && x.id == owner && c.evidence == [owner] && c.severity == High
                  && x.hash !in CustodyHashes(custody, owner) && CustodyHashes(custody, owner) != {}
    case VerdictDisagreement(suspicious) =>
      && SomeDisagree(items) && c.severity == High
      && (forall id :: id in suspicious <==> exists x :: x in items && IsSuspicious(x) && x.id == id)
      && (forall id :: id in c.evidence <==> exists x :: x in items && (IsSuspicious(x) || IsGenuine(x)) && x.id == id)
      && (forall f :: f in c.findings <==> exists x :: x in items && f in x.supporting)
    case ConfidenceDisagreement =>
      && SomeDiverge(items) && c.severity == Medium
      && forall id :: id in c.evidence <==> exists x :: x in items && x.confidence.Some? && x.id == id
    case ForensicContradiction(owner) =>
      exists x :: x in items && x.id == owner && IsSuspicious(x) && x.contradicting != []
                  && c.evidence == [owner] && c.findings == x.contradicting && c.severity == Medium
  }

  lemma TemporalSays(c: Conflict, items: seq<Participation>, custody: seq<CustodyEvent>)
    requires c in TemporalConflicts(items)
    ensures Says(c, items, custody)
  {
    CompletedRows(items);
    var rows := Sorted(Keep(items, Completed), EarlierOrSame);
    var x, y := rows[0], rows[|rows| - 1];
    assert x in rows && y in rows && c == TemporalConflict(x, y);
    assert FarApart(x, y);
    forall z | z in items && Completed(z) ensures CompletedAt(x) <= CompletedAt(z) <= CompletedAt(y) {
      assert z in rows;
      var i :| 0 <= i < |rows| && rows[i] == z;
      assert i > 0 ==> EarlierOrSame(rows[0], rows[i]);
      assert i < |rows| - 1 ==> EarlierOrSame(rows[i], rows[|rows| - 1]);
    }
  }

  /** Where a row made from a kept item comes from. */
  lemma MadeFrom(items: seq<Participation>, p: Participation -> bool, make: Participation -> Conflict, c: Conflict)
    returns (x: Participation)
    requires c in Each(Keep(items, p), make)
    ensures x in items && p(x) && c == make(x)
  {
    var kept := Keep(items, p);
    KeepMembers(items, p);
    var i :| 0 <= i < |kept| && Each(kept, make)[i] == c;
    x := kept[i];
    assert x in kept;
  }

  lemma ProvenanceSays(c: Conflict, items: seq<Participation>, custody: seq<CustodyEvent>)
    requires c in ProvenanceConflicts(items, custody)
    ensures Says(c, items, custody)
  {
    var x := MadeFrom(items, item => Mismatched(custody, item), ProvenanceConflict, c);
  }

  lemma ContradictionSays(c: Conflict, items: seq<Participation>, custody: seq<CustodyEvent>)
    requires c in ContradictionConflicts(items)
    ensures Says(c, items, custody)
  {
    var x := MadeFrom(items, Contradicted, ContradictionConflict, c);
  }

  lemma IdsKept(items: seq<Participation>, p: Participation -> bool)
    ensures forall id :: id in Each(Keep(items, p), IdOf) <==> exists x :: x in items && p(x) && x.id == id
  {
    var kept := Keep(items, p);
    KeepMembers(items, p);
    forall id | id in Each(kept, IdOf) ensures exists x :: x in items && p(x) && x.id == id {
      var i :| 0 <= i < |kept| && Each(kept, IdOf)[i] == id;
      assert kept[i] in kept;
    }
    forall x | x in items && p(x) ensures x.id in Each(kept, IdOf) {
      assert x in kept;
      var i :| 0 <= i < |kept| && kept[i] == x;
      assert Each(kept, IdOf)[i] == IdOf(kept[i]);
    }
  }

  lemma SortedIdsSame(ids: seq<Uuid>)
    ensures forall id :: id in SortedIds(ids) <==> id in ids
  {
    SortedIsPermutation(ids, (x: Uuid, y: Uuid) => Le(x, y));
  }

  lemma {:induction false} FlatIs(items: seq<Participation>)
    ensures forall f :: f in Flat(items) <==> exists x :: x in items && f in x.supporting
  {
    if items != [] {
      FlatIs(items[1..]);
      assert items == [items[0]] + items[1..];
    }
  }

  lemma VerdictSays(c: Conflict, items: seq<Participation>, custody: seq<CustodyEvent>)
    requires c in VerdictConflicts(items)
    ensures Says(c, items, custody)
  {
    var suspicious, genuine := Each(Keep(items, IsSuspicious), IdOf), Each(Keep(items, IsGenuine), IdOf);
    VerdictMeaning(items);
    IdsKept(items, IsSuspicious);
    IdsKept(items, IsGenuine);
    SortedIdsSame(suspicious);
    SortedIdsSame(suspicious + genuine);
    FlatIs(items);
  }

  lemma ConfidenceSays(c: Conflict, items: seq<Participation>, custody: seq<CustodyEvent>)
    requires c in ConfidenceConflicts(items)
    ensures Says(c, items, custody)
  {
    ConfidenceMeaning(items);
    IdsKept(items, HasConfidence);
  }

  /** Every conflict of an assessment says what it says of the evidence: which items it concerns, with
      what findings, and how severe it is. */
  lemma EveryConflictSays(items: seq<Participation>, custody: seq<CustodyEvent>, conflicts: seq<Conflict>, c: Conflict)
    requires IsUnique(Raised(items, Consistency(items, custody)), ConflictId, conflicts) && c in conflicts
    ensures Says(c, items, custody)
  {
    var raised := Raised(items, Consistency(items, custody));
    var i :| First(raised, ConflictId, i) && raised[i] == c;
    assert c in raised;
    if c in TemporalConflicts(items) {
      TemporalSays(c, items, custody);
    } else if c in ProvenanceConflicts(items, custody) {
      ProvenanceSays(c, items, custody);
    } else if c in VerdictConflicts(items) {
      VerdictSays(c, items, custody);
    } else if c in ConfidenceConflicts(items) {
      ConfidenceSays(c, items, custody);
    } else {
      ContradictionSays(c, items, custody);
    }
  }

  // ----- what is collected ---------------------------------------------------------------

  /** What a collected item carries: the values of its row and of the latest run, if there is one. */
  lemma CollectedCarries(rows: seq<Row>, i: int)
    requires 0 <= i < |rows|
    ensures var row, item := rows[i], Collected(rows)[i];
            && |Collected(rows)| == |rows| && item.id == row.id && item.hash == row.hash
            && (row.fusion.None? ==> item.verdict.None? && item.risk.None? && item.confidence.None? && item.completedAt.None?
                                     && item.supporting == item.contradicting == item.modalities == [])
            && (row.fusion.Some? ==>
                  var run := row.fusion.value;
                  && item.verdict == run.verdict && item.risk == run.risk && item.confidence == run.confidence
                  && item.supporting == run.supporting && item.contradicting == run.contradicting
                  && item.modalities == run.modalities && item.completedAt == run.completedAt)
  {
    assert Collected(rows)[i] == Participate(rows[i]);
  }
}
