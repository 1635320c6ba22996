/** Stages, flags and ratios of a review run in terms of the case itself: its evidence, custody,
    conflicts and findings (backend/app/case_review/engine.py:43-64, checklist.py and scoring.py). */
module ReviewStages {
  import opened Bags
  import opened ReviewChecklist
  import opened ReviewModel
  import opened ReviewOrder
  import opened ReviewRuns
  import opened Rounding

  // ----- the case ------------------------------------------------------------------------

  ghost predicate AllHashed(s: Snapshot) { forall e :: e in s.evidence ==> e.hash != "" }
  ghost predicate AllDescribed(s: Snapshot) { forall e :: e in s.evidence ==> e.hasMetadata }
  ghost predicate AllInCustody(s: Snapshot) { forall e :: e in s.evidence ==> e.id in s.custody && s.custody[e.id] > 0 }

  /** Nothing in the case stands in the way of approval. */
  ghost predicate IsClear(s: Snapshot) {
    && s.evidence != [] && AllHashed(s) && AllInCustody(s)
    && s.timelineConflicts == [] && s.fusionConflicts == [] && s.openConflicts == []
  }

  /** Nothing is left to do either. */
  ghost predicate IsComplete(s: Snapshot) {
    && IsClear(s) && AllDescribed(s) && s.timelineEvents != [] && s.aiFindings != [] && s.fusionRuns != []
    && (|s.evidence| >= 2 ==> s.correlations != []) && s.knowledgeGraphs != [] && s.hypotheses != []
    && s.recommendations != [] && s.reports != []
  }

  lemma {:induction false} CountAll(items: seq<Evidence>, p: Evidence -> bool)
    ensures Count(items, p) <= |items| && (Count(items, p) == |items| <==> forall e :: e in items ==> p(e))
  {
    if items != [] {
      CountAll(items[1..], p);
      assert items == [items[0]] + items[1..];
      assert items[0] in items;
    }
  }

  lemma SignalsAre(s: Snapshot)
    ensures var g := EvaluateSignals(s);
            && (g.withHash == g.total <==> AllHashed(s)) && (g.withMetadata == g.total <==> AllDescribed(s))
            && (g.withCustody == g.total <==> AllInCustody(s))
            && g.withHash <= g.total && g.withMetadata <= g.total && g.withCustody <= g.total
  {
    CountAll(s.evidence, HasHash);
    CountAll(s.evidence, HasMetadata);
    CountAll(s.evidence, HasCustody(s.custody));
  }

  /** Which items block, and why. */
  lemma WhatBlocks(s: Snapshot)
    ensures var g := EvaluateSignals(s);
            && (Blocks(EvidenceIntegrity, g) <==> s.evidence == [] || !AllHashed(s))
            && (Blocks(Sha256Verified, g) <==> !AllHashed(s))
            && (Blocks(ChainOfCustodyComplete, g) <==> !AllInCustody(s))
            && (Blocks(TimelineReviewed, g) <==> s.timelineConflicts != [])
            && (Blocks(FusionReviewed, g) <==> s.fusionConflicts != [])
            && (Blocks(FinalValidation, g) <==> !IsClear(s))
            && (forall code :: Blocks(code, g) ==> code in {EvidenceIntegrity, Sha256Verified, ChainOfCustodyComplete,
                                                            TimelineReviewed, FusionReviewed, FinalValidation})
  {
    SignalsAre(s);
  }

  /** Which items are outstanding without blocking, and why. */
  lemma WhatIsMissing(s: Snapshot)
    ensures var g := EvaluateSignals(s);
            && (Missing(MetadataVerified, g) <==> !AllDescribed(s))
            && (Missing(TimelineReviewed, g) <==> s.timelineEvents == [])
            && (Missing(AiFindingsReviewed, g) <==> s.aiFindings == [])
            && (Missing(FusionReviewed, g) <==> s.fusionRuns == [])
            && (Missing(CorrelationsReviewed, g) <==> s.correlations == [] && |s.evidence| >= 2)
            && (Missing(KnowledgeGraphReviewed, g) <==> s.knowledgeGraphs == [])
            && (Missing(HypothesesReviewed, g) <==> s.hypotheses == [])
            && (Missing(RecommendationsReviewed, g) <==> s.recommendations == [])
            && (Missing(ReportReviewed, g) <==> s.reports == [])
            && !Missing(EvidenceIntegrity, g) && !Missing(Sha256Verified, g) && !Missing(ChainOfCustodyComplete, g)
            && !Missing(FinalValidation, g)
  {
    SignalsAre(s);
  }

  /** The suggested status agrees with the flags: it fails what blocks or lacks metadata, awaits what
      is missing, does not apply to what is counted without evidence, and passes the rest. */
  lemma SuggestionAgrees(s: Snapshot, code: Code)
    ensures var g := EvaluateSignals(s);
            Suggested(code, g) ==
              if code == FinalValidation && Blocks(code, g) then Blocked
              else if Blocks(code, g) || (code == MetadataVerified && Missing(code, g)) then Fail
              else if code in {Sha256Verified, MetadataVerified, ChainOfCustodyComplete} && s.evidence == [] then Na
              else if Missing(code, g) || (code == CorrelationsReviewed && s.correlations == [])
                      || (code == FinalValidation && s.openWorkflowTasks != 0) then ItemStatus.Pending
              else Pass
  {
    SignalsAre(s);
  }

  lemma NoneFlagged(s: Snapshot, p: Item -> bool)
    ensures var items := Checklist(EvaluateSignals(s));
            Count(items, p) == 0 <==> forall code :: !p(ItemFor(code, EvaluateSignals(s)))
  {
    var g := EvaluateSignals(s);
    var items := Checklist(g);
    CountPositive(items, p);
    if x :| x in items && p(x) {
      var i :| 0 <= i < |items| && items[i] == x;
      assert x == ItemFor(CHECKLIST[i], g);
    }
    if code :| p(ItemFor(code, g)) {
      var i := CodeInPolicy(code);
      assert items[i] == ItemFor(code, g) && items[i] in items;
    }
  }

  /** A checklist has no blocker exactly when the case is clear. */
  lemma ClearWhen(s: Snapshot)
    ensures BlockerCount(EvaluateSignals(s)) == 0 <==> IsClear(s)
  {
    WhatBlocks(s);
    NoneFlagged(s, IsBlocking);
    if IsClear(s) {
      forall code ensures !Blocks(code, EvaluateSignals(s)) {}
    } else {
      assert IsBlocking(ItemFor(FinalValidation, EvaluateSignals(s)));
    }
  }

  /** And nothing outstanding exactly when it is complete. */
  lemma CompleteWhen(s: Snapshot)
    ensures Count(Checklist(EvaluateSignals(s)), IsOutstanding) == 0 <==> IsComplete(s)
  {
    var g := EvaluateSignals(s);
    WhatBlocks(s);
    WhatIsMissing(s);
    NoneFlagged(s, IsOutstanding);
    if IsComplete(s) {
      forall code ensures !IsOutstanding(ItemFor(code, g)) {}
    } else {
      OpenItem(s);
    }
  }

  lemma OpenItem(s: Snapshot)
    requires !IsComplete(s)
    ensures exists code :: IsOutstanding(ItemFor(code, EvaluateSignals(s)))
  {
    var g := EvaluateSignals(s);
    WhatBlocks(s);
    WhatIsMissing(s);
    var code := if !IsClear(s) then FinalValidation else if !AllDescribed(s) then MetadataVerified
                else if s.timelineEvents == [] then TimelineReviewed else if s.aiFindings == [] then AiFindingsReviewed
                else if s.fusionRuns == [] then FusionReviewed else if s.knowledgeGraphs == [] then KnowledgeGraphReviewed
                else if s.hypotheses == [] then HypothesesReviewed else if s.recommendations == [] then RecommendationsReviewed
                else if s.reports == [] then ReportReviewed else CorrelationsReviewed;
    assert IsOutstanding(ItemFor(code, g));
  }

  // ----- the stage over every run --------------------------------------------------------

  ghost predicate Someone(approvals: seq<Approval>, d: Decision) { exists a :: a in approvals && a.decision == d }

  ghost predicate EveryoneApproved(approvals: seq<Approval>) { forall role: Role :: Approval(role, Decision.Approved) in approvals }

  /** The stage of every run, from the decisions and the case as it was last seen.  A run is validated
      when the case is complete but not all have approved, and under review whenever the case is not
      complete and not both clear and approved by all. */
  lemma StageCharacterized(s: Snapshot, requests: seq<Request>)
    ensures var run, seen := After(s, requests), LastSeen(s, requests);
            run.stage ==
              if Someone(run.approvals, Decision.Rejected) then Stage.Rejected
              else if Someone(run.approvals, Decision.ChangesRequested) then Stage.ChangesRequested
              else if EveryoneApproved(run.approvals) && IsClear(seen) then Stage.Approved
              else if IsComplete(seen) then Validated
              else UnderReview
  {
    var run, seen := After(s, requests), LastSeen(s, requests);
    StageFollows(s, requests);
    ClearWhen(seen);
    CompleteWhen(seen);
    ApprovalComplete(ApprovedRoles(run.approvals));
    forall role: Role ensures role in ApprovedRoles(run.approvals) <==> Approval(role, Decision.Approved) in run.approvals {
      RoleApproved(run.approvals, role);
    }
  }

  // ----- outstanding items over every run ------------------------------------------------

  /** Item `i` is still open: it was last set to await review, to have failed or to be blocked, or was
      never set and was outstanding when it was generated. */
  predicate StillOpen(s: Snapshot, requests: seq<Request>, i: nat)
    requires i < |CHECKLIST|
  {
    match LastStatus(requests, i)
    case Some(status) => status == ItemStatus.Pending || status == Fail || status == Blocked
    case None => Blocks(CHECKLIST[i], EvaluateSignals(s)) || Missing(CHECKLIST[i], EvaluateSignals(s))
  }

  /** Over every run, an item is outstanding, and listed as such, exactly when it is still open; and
      its status is the last one set. */
  lemma OutstandingFollows(s: Snapshot, requests: seq<Request>, i: nat)
    requires i < |CHECKLIST|
    ensures var run := After(s, requests);
            && |run.items| == |CHECKLIST|
            && (run.items[i].outstanding <==> StillOpen(s, requests, i))
            && (CHECKLIST[i] in run.outstanding <==> StillOpen(s, requests, i))
            && run.items[i].status == (match LastStatus(requests, i) case Some(status) => status case None => ItemStatus.Pending)
  {
    var run, item := After(s, requests), Checklist(EvaluateSignals(s))[i];
    ItemFollows(s, requests, i);
    assert item == ItemFor(CHECKLIST[i], EvaluateSignals(s));
    AlwaysConsistent(s, requests);
    OneOfEach(run.items);
    OnlyFlag(run.items, IsOutstanding, i);
    BlockingFollows(s, requests, i);
  }

  // ----- ratios --------------------------------------------------------------------------

  /** The ratio of evidence with a hash reads as complete exactly when at most one item in 20000 has
      none: rounding to four places hides such a share. */
  lemma CoverageReads(s: Snapshot, approvals: seq<Approval>)
    ensures var g := EvaluateSignals(s);
            PlanMetrics(s, approvals).evidenceCoverage == 10000 <==> g.total > 0 && 20000 * (g.total - g.withHash) <= g.total
  {
    var g := EvaluateSignals(s);
    SignalsAre(s);
    if g.total > 0 {
      RatioThreshold(g.withHash, g.total, 10000);
      RatioInUnitInterval(g.withHash, g.total);
    }
  }

  function Hashed(n: nat): seq<Evidence> { seq(n, i requires 0 <= i < n => Evidence("e", "h", false)) }

  /** For example, with one item without a hash among 20000: its case is blocked, and reads as covered. */
  lemma CoverageHides(s: Snapshot, approvals: seq<Approval>)
    requires s.evidence == [Evidence("d", "", false)] + Hashed(19999)
    ensures !AllHashed(s) && !IsClear(s) && PlanMetrics(s, approvals).evidenceCoverage == 10000
  {
    var first, rest := [Evidence("d", "", false)], Hashed(19999);
    assert s.evidence[0] in s.evidence && !HasHash(s.evidence[0]);
    KeepSplit(first, rest, HasHash);
    KeepAll(rest, HasHash);
    assert first[1..] == [] && Keep(first, HasHash) == [];
    CoverageReads(s, approvals);
  }

  lemma {:induction false} ItemsAll(items: seq<Item>, p: Item -> bool)
    ensures Count(items, p) <= |items| && (Count(items, p) == |items| <==> forall x :: x in items ==> p(x))
  {
    if items != [] {
      ItemsAll(items[1..], p);
      assert items == [items[0]] + items[1..];
      assert items[0] in items;
    }
  }

  lemma FullRatio(items: seq<Item>, listed: seq<Item>, p: Item -> bool)
    requires 0 < |items| <= 13 && multiset(listed) == multiset(items)
    ensures TenThousandths(Count(listed, p), AtLeastOne(|listed|)) == 10000 <==> forall x :: x in items ==> p(x)
  {
    PermutedMembers(listed, items);
    ItemsAll(listed, p);
    RatioThreshold(Count(listed, p), |listed|, 10000);
    RatioInUnitInterval(Count(listed, p), |listed|);
  }

  /** As generated, validation reads as complete exactly when every item is suggested to pass or not to
      apply, and the review exactly when something is suggested for every item. */
  lemma GeneratedRatios(s: Snapshot)
    ensures var m, g := Generated(s).metrics, EvaluateSignals(s);
            && (m.validation == 10000 <==> forall code :: Suggested(code, g) == Pass || Suggested(code, g) == Na)
            && (m.reviewCompletion == 10000 <==> forall code :: Suggested(code, g) != ItemStatus.Pending)
  {
    var g := EvaluateSignals(s);
    var items := Checklist(g);
    FullRatio(items, items, IsPassed);
    FullRatio(items, items, IsReviewed);
    forall code ensures ItemFor(code, g) in items {
      var i := CodeInPolicy(code);
      assert items[i] == ItemFor(code, g);
    }
    forall x | x in items ensures x == ItemFor(x.code, g) {
      var i :| 0 <= i < |items| && items[i] == x;
      assert x == ItemFor(CHECKLIST[i], g);
    }
    forall code
      ensures IsPassed(ItemFor(code, g)) <==> Suggested(code, g) == Pass || Suggested(code, g) == Na
      ensures IsReviewed(ItemFor(code, g)) <==> Suggested(code, g) != ItemStatus.Pending
    {}
  }

  lemma ServedRatios(run: Run, live: Snapshot)
    requires Sound(run.items)
    ensures var m := Recomputed(run, live).metrics;
            && (m.validation == 10000 <==> forall x :: x in run.items ==> x.status == Pass || x.status == Na)
            && (m.reviewCompletion == 10000 <==> forall x :: x in run.items ==> x.status != ItemStatus.Pending)
  {
    OneOfEach(run.items);
    ListedFacts(run.items);
    assert |run.items| == |Each(run.items, CodeOf)| == 13;
    FullRatio(run.items, ItemsForRun(run.items), StatusPassed);
    FullRatio(run.items, ItemsForRun(run.items), StatusReviewed);
  }

  /** Once a request is served, validation reads as complete exactly when every item was set to PASS
      or NA, and the review exactly when every item was set to anything but PENDING. */
  lemma {:induction false} RatiosRead(s: Snapshot, requests: seq<Request>)
    requires Served(s, requests)
    ensures var run := After(s, requests);
            && (run.metrics.validation == 10000 <==> forall x :: x in run.items ==> x.status == Pass || x.status == Na)
            && (run.metrics.reviewCompletion == 10000 <==> forall x :: x in run.items ==> x.status != ItemStatus.Pending)
  {
    var n := |requests| - 1;
    var before, q := After(s, requests[..n]), requests[n];
    AlwaysConsistent(s, requests);
    AlwaysConsistent(s, requests[..n]);
    if Step(before, q).1 == Done {
      match q {
        case UpdateRequest(i, status, live) =>
          if status.Unchanged? {
            ServedRatios(before, live);
          } else {
            EditedSound(before.items, i, status.status);
            ServedRatios(before.(items := before.items[i := WithStatus(before.items[i], status.status)]), live);
          }
        case ApprovalRequest(decision, role, live) =>
          ServedRatios(before.(approvals := before.approvals + [Approval(role.value, decision.value)]), live);
      }
    } else {
      StepConsistent(before, q);
      RatiosRead(s, requests[..n]);
    }
  }
}
