/** How evidence enters a case synthesis (backend/app/case_intelligence/aggregation.py), and what
    the verdicts mean for evidence that entered that way. */
module CaseCollection {
  import opened Bags
  import opened CaseConflicts
  import opened CaseModel
  import opened CasePolicy
  import opened Options

  datatype FusionStatus = Queued | Running | Succeeded | Failed | Unavailable | Cancelled

  /** A stored fusion run. */
  datatype FusionRun = FusionRun(
    status: FusionStatus,
    verdict: Option<Verdict>,
    risk: Option<real>,
    confidence: Option<real>,
    supporting: seq<string>,
    contradicting: seq<string>,
    modalities: seq<string>,
    completedAt: Option<int>)

  /** A value of the stored metadata. */
  datatype Json = Missing | Text(s: string) | Falsy | Truthy

  /** An evidence row of a case with its latest fusion run, and with what its metadata says about
      creator and author (both missing when there is no processing record). */
  datatype Row = Row(id: Uuid, hash: string, fusion: Option<FusionRun>, creator: Json, author: Json)

  /** The statuses that the fusion service stores (backend/app/fusion/service.py:139, 195 and 391). */
  predicate IsStored(run: FusionRun) { run.status.Running? || run.status.Succeeded? || run.status.Failed? }

  ghost predicate AllStored(rows: seq<Row>) {
    forall row :: row in rows && row.fusion.Some? ==> IsStored(row.fusion.value)
  }

  function CoverageStatus(verdict: Option<Verdict>, status: Option<FusionStatus>): Status {
    if status == Some(FusionStatus.Failed) then Status.Failed
    else if status == Some(FusionStatus.Unavailable) then Status.Unavailable
    else if verdict.None? then NotAnalyzed
    else
      match verdict.value
      case InsufficientEvidence => Status.InsufficientEvidence
      case Unavailable => Status.Unavailable
      case Inconclusive => Status.Inconclusive
      case _ => Analyzed
  }

  function Participate(row: Row): Participation {
    match row.fusion
    case None => Participation(row.id, row.hash, CoverageStatus(None, None), None, None, None, [], [], [], None)
    case Some(run) =>
      Participation(row.id, row.hash, CoverageStatus(run.verdict, Some(run.status)), run.verdict, run.risk, run.confidence,
                    run.supporting, run.contradicting, run.modalities, run.completedAt)
  }

  /** One participation for every row. */
  function Collected(rows: seq<Row>): seq<Participation> { Each(rows, Participate) }

  method CollectCaseEvidence(rows: seq<Row>) returns (items: seq<Participation>)
    ensures items == Collected(rows)
  {
    items := [];
    for i := 0 to |rows|
      invariant items == Collected(rows[..i])
    {
      assert Collected(rows[..i + 1]) == Collected(rows[..i]) + [Participate(rows[i])];
      var row := rows[i];
      if row.fusion.None? {
        items := items + [Participation(row.id, row.hash, CoverageStatus(None, None), None, None, None, [], [], [], None)];
        continue;
      }
      var run := row.fusion.value;
      items := items + [Participation(row.id, row.hash, CoverageStatus(run.verdict, Some(run.status)), run.verdict, run.risk,
                                      run.confidence, run.supporting, run.contradicting, run.modalities, run.completedAt)];
    }
    assert rows[..|rows|] == rows;
  }

  /** As stored, only a verdict of unavailable makes an item unavailable. */
  lemma CollectedReachable(rows: seq<Row>, item: Participation)
    requires AllStored(rows) && item in Collected(rows) && item.verdict.Some? && !item.verdict.value.Unavailable?
    ensures IsReachable(item)
  {
    var i :| 0 <= i < |rows| && Collected(rows)[i] == item;
    assert rows[i] in rows && item == Participate(rows[i]);
  }

  lemma SomeReachable(rows: seq<Row>, p: Participation -> bool)
    requires AllStored(rows) && Includes(Collected(rows), p)
    requires forall item :: p(item) ==> item.verdict.Some? && !item.verdict.value.Unavailable?
    ensures Includes(Collected(rows), IsReachable)
  {
    var item :| item in Collected(rows) && p(item);
    CollectedReachable(rows, item);
  }

  /** For collected evidence, any potential-fraud item forces the verdict, and nothing else does. */
  lemma FraudForces(rows: seq<Row>, conflicts: nat)
    requires AllStored(rows)
    ensures CaseVerdict(Collected(rows), conflicts) == PotentialFraud <==> Includes(Collected(rows), IsFraud)
  {
    FraudCharacterized(Collected(rows), conflicts);
    if Includes(Collected(rows), IsFraud) {
      SomeReachable(rows, IsFraud);
    }
  }

  /** For collected evidence, the verdict is suspicious exactly when there is no fraud, and two
      items are suspicious, or one is and none is genuine. */
  lemma SuspicionForces(rows: seq<Row>, conflicts: nat)
    requires AllStored(rows)
    ensures var items := Collected(rows);
            CaseVerdict(items, conflicts) == Suspicious <==>
              && !Includes(items, IsFraud) && Includes(items, IsMerelySuspicious)
              && (!Includes(items, IsGenuine)
                  || exists i, j :: 0 <= i < j < |items| && IsMerelySuspicious(items[i]) && IsMerelySuspicious(items[j]))
  {
    SuspiciousCharacterized(Collected(rows), conflicts);
    if Includes(Collected(rows), IsMerelySuspicious) {
      SomeReachable(rows, IsMerelySuspicious);
    }
  }

  /** For collected evidence, a genuine verdict is exactly a genuine item, no suspicious one, and
      agreement of all confidences, completions and custody records. */
  lemma GenuineCertifies(rows: seq<Row>, custody: seq<CustodyEvent>)
    requires AllStored(rows)
    ensures var items := Collected(rows);
            CaseVerdict(items, ConflictCount(items, custody)) == Genuine <==>
              && Includes(items, IsGenuine) && !Includes(items, IsSuspicious)
              && CloseConfidences(items) && CloseTimes(items) && CustodyAgrees(items, custody)
  {
    GenuineCharacterized(Collected(rows), custody);
    if Includes(Collected(rows), IsGenuine) {
      SomeReachable(rows, IsGenuine);
    }
  }
}
