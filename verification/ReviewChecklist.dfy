/** Checklist generation (backend/app/case_review/checklist.py) and what blocks a case. */
module ReviewChecklist {
  import opened Bags
  import opened ReviewModel
  import opened Rounding

  // ----- the policy, item by item --------------------------------------------------------

  /** Some evidence lacks what `n` counts. */
  predicate Incomplete(s: Signals, n: nat) { s.total > 0 && n < s.total }

  predicate AllSound(s: Signals) {
    && s.total > 0 && s.withHash == s.total && s.withCustody == s.total
    && s.timelineConflicts == 0 && s.fusionConflicts == 0 && s.openConflicts == 0
  }

  /** What makes an item block. */
  predicate Blocks(code: Code, s: Signals) {
    match code
    case EvidenceIntegrity => s.total == 0 || s.withHash < s.total
    case Sha256Verified => Incomplete(s, s.withHash)
    case ChainOfCustodyComplete => Incomplete(s, s.withCustody)
    case TimelineReviewed => s.timelineConflicts > 0
    case FusionReviewed => s.fusionConflicts > 0
    case FinalValidation => !AllSound(s)
    case _ => false
  }

  /** What leaves an item outstanding although it does not block. */
  predicate Missing(code: Code, s: Signals) {
    match code
    case MetadataVerified => Incomplete(s, s.withMetadata)
    case TimelineReviewed => !s.hasTimeline
    case AiFindingsReviewed => !s.hasAiFindings
    case FusionReviewed => !s.hasFusion
    case CorrelationsReviewed => !s.hasCorrelations && s.total >= 2
    case KnowledgeGraphReviewed => !s.hasKnowledgeGraph
    case HypothesesReviewed => !s.hasHypotheses
    case RecommendationsReviewed => !s.hasRecommendations
    case ReportReviewed => !s.hasReports
    case _ => false
  }

  function PassIf(done: bool): ItemStatus { if done then Pass else ItemStatus.Pending }

  function Measured(s: Signals, n: nat): ItemStatus {
    if s.total == 0 then Na else if n == s.total then Pass else Fail
  }

  function Suggested(code: Code, s: Signals): ItemStatus {
    match code
    case EvidenceIntegrity => if s.total > 0 && s.withHash == s.total then Pass else Fail
    case Sha256Verified => Measured(s, s.withHash)
    case MetadataVerified => Measured(s, s.withMetadata)
    case ChainOfCustodyComplete => Measured(s, s.withCustody)
    case TimelineReviewed => if s.timelineConflicts > 0 then Fail else PassIf(s.hasTimeline)
    case AiFindingsReviewed => PassIf(s.hasAiFindings)
    case FusionReviewed => if s.fusionConflicts > 0 then Fail else PassIf(s.hasFusion)
    case CorrelationsReviewed => PassIf(s.hasCorrelations)
    case KnowledgeGraphReviewed => PassIf(s.hasKnowledgeGraph)
    case HypothesesReviewed => PassIf(s.hasHypotheses)
    case RecommendationsReviewed => PassIf(s.hasRecommendations)
    case ReportReviewed => PassIf(s.hasReports)
    case FinalValidation => if !AllSound(s) then Blocked else PassIf(s.openWorkflowTasks == 0)
  }

  function ItemFor(code: Code, s: Signals): Item {
    Item(code, ItemStatus.Pending, Suggested(code, s), Blocks(code, s), Blocks(code, s) || Missing(code, s))
  }

  function ItemOf(s: Signals): Code -> Item { (code: Code) => ItemFor(code, s) }

  /** One item per code of the policy, in its order. */
  function Checklist(s: Signals): seq<Item> {
    Each(CHECKLIST, ItemOf(s))
  }

  // ----- how the list is built -----------------------------------------------------------

  function Draft(code: Code, suggested: ItemStatus, blocking: bool, outstanding: bool): Item {
    Item(code, ItemStatus.Pending, suggested, blocking, outstanding)
  }

  /** The items added so far are those of the first codes of the policy. */
  ghost predicate Filled(items: seq<Item>, s: Signals) {
    |items| <= |CHECKLIST| && forall i :: 0 <= i < |items| ==> items[i] == ItemFor(CHECKLIST[i], s)
  }

  method AddEvidenceItems(s: Signals) returns (items: seq<Item>)
    requires s.withHash <= s.total && s.withMetadata <= s.total && s.withCustody <= s.total
    ensures |items| == 4 && Filled(items, s)
  {
    items := [];
    var total := s.total;
    if total == 0 {
      items := items + [Draft(EvidenceIntegrity, Fail, true, true)];
    } else {
      items := items + [Draft(EvidenceIntegrity, if s.withHash == total then Pass else Fail, s.withHash < total, s.withHash < total)];
    }
    items := items + [Draft(Sha256Verified,
      if total != 0 && s.withHash == total then Pass else if total != 0 then Fail else Na,
      total != 0 && s.withHash < total, total != 0 && s.withHash < total)];
    items := items + [Draft(MetadataVerified,
      if total != 0 && s.withMetadata == total then Pass else if total != 0 then Fail else Na,
      false, total != 0 && s.withMetadata < total)];
    items := items + [Draft(ChainOfCustodyComplete,
      if total != 0 && s.withCustody == total then Pass else if total != 0 then Fail else Na,
      total != 0 && s.withCustody < total, total != 0 && s.withCustody < total)];
  }

  method AddReviewItems(s: Signals, before: seq<Item>) returns (items: seq<Item>)
    requires |before| == 4 && Filled(before, s)
    ensures |items| == 8 && Filled(items, s)
  {
    items := before + [Draft(TimelineReviewed,
      if s.hasTimeline && s.timelineConflicts == 0 then Pass else if s.timelineConflicts != 0 then Fail else ItemStatus.Pending,
      s.timelineConflicts > 0, !s.hasTimeline || s.timelineConflicts > 0)];
    items := items + [Draft(AiFindingsReviewed, if s.hasAiFindings then Pass else ItemStatus.Pending, false, !s.hasAiFindings)];
    items := items + [Draft(FusionReviewed,
      if s.fusionConflicts != 0 then Fail else if s.hasFusion then Pass else ItemStatus.Pending,
      s.fusionConflicts > 0, !s.hasFusion || s.fusionConflicts > 0)];
    items := items + [Draft(CorrelationsReviewed, if s.hasCorrelations then Pass else ItemStatus.Pending,
      false, !s.hasCorrelations && s.total >= 2)];
  }

  method AddClosingItems(s: Signals, before: seq<Item>) returns (items: seq<Item>)
    requires |before| == 8 && Filled(before, s)
    ensures |items| == 13 && Filled(items, s)
  {
    items := before + [Draft(KnowledgeGraphReviewed, if s.hasKnowledgeGraph then Pass else ItemStatus.Pending, false, !s.hasKnowledgeGraph)];
    items := items + [Draft(HypothesesReviewed, if s.hasHypotheses then Pass else ItemStatus.Pending, false, !s.hasHypotheses)];
    items := items + [Draft(RecommendationsReviewed, if s.hasRecommendations then Pass else ItemStatus.Pending, false, !s.hasRecommendations)];
    items := items + [Draft(ReportReviewed, if s.hasReports then Pass else ItemStatus.Pending, false, !s.hasReports)];
    items := AddFinalValidation(s, items);
  }

  method AddFinalValidation(s: Signals, before: seq<Item>) returns (items: seq<Item>)
    requires |before| == 12 && Filled(before, s)
    ensures |items| == 13 && Filled(items, s)
  {
    var workflowOk := s.openWorkflowTasks == 0 && (s.workflowCompletion >= 0.8 || s.openWorkflowTasks == 0);
    var finalPass := s.total > 0 && s.withHash == s.total && s.withCustody == s.total
                     && s.timelineConflicts == 0 && s.fusionConflicts == 0 && s.openConflicts == 0;
    items := before + [Draft(FinalValidation,
      if finalPass && workflowOk then Pass else if !finalPass then Blocked else ItemStatus.Pending, !finalPass, !finalPass)];
  }

  /** `item` is the last one of its code. */
  ghost predicate IsLast(items: seq<Item>, item: Item) {
    exists i :: 0 <= i < |items| && items[i] == item && forall j :: i < j < |items| ==> items[j].code != item.code
  }

  /** One item for every code of the policy, in its order: the last that was added, or one that
      awaits review. */
  method Reorder(items: seq<Item>) returns (ordered: seq<Item>)
    ensures |ordered| == |CHECKLIST|
    ensures forall i :: 0 <= i < |CHECKLIST| ==> ordered[i].code == CHECKLIST[i]
    ensures forall i :: 0 <= i < |CHECKLIST| ==>
              IsLast(items, ordered[i]) ||
              ((forall item :: item in items ==> item.code != CHECKLIST[i])
               && ordered[i] == Item(CHECKLIST[i], ItemStatus.Pending, ItemStatus.Pending, false, true))
  {
    var byCode: map<Code, Item> := map[];
    for i := 0 to |items|
      invariant forall code :: code in byCode <==> exists item :: item in items[..i] && item.code == code
      invariant forall code :: code in byCode ==> byCode[code].code == code && IsLast(items[..i], byCode[code])
    {
      LastAfter(items, i, byCode);
      byCode := byCode[items[i].code := items[i]];
    }
    assert items[..|items|] == items;
    ordered := [];
    for i := 0 to |CHECKLIST|
      invariant |ordered| == i
      invariant forall j :: 0 <= j < i ==>
                  ordered[j] == if CHECKLIST[j] in byCode then byCode[CHECKLIST[j]]
                                else Item(CHECKLIST[j], ItemStatus.Pending, ItemStatus.Pending, false, true)
    {
      var code := CHECKLIST[i];
      if code in byCode {
        ordered := ordered + [byCode[code]];
      } else {
        ordered := ordered + [Item(code, ItemStatus.Pending, ItemStatus.Pending, false, true)];
      }
    }
  }

  lemma LastAfter(items: seq<Item>, i: int, byCode: map<Code, Item>)
    requires 0 <= i < |items|
    requires forall code :: code in byCode <==> exists item :: item in items[..i] && item.code == code
    requires forall code :: code in byCode ==> byCode[code].code == code && IsLast(items[..i], byCode[code])
    ensures var after := byCode[items[i].code := items[i]];
            && (forall code :: code in after <==> exists item :: item in items[..i + 1] && item.code == code)
            && (forall code :: code in after ==> after[code].code == code && IsLast(items[..i + 1], after[code]))
  {
    var after, prefix, longer := byCode[items[i].code := items[i]], items[..i], items[..i + 1];
    assert longer == prefix + [items[i]];
    assert longer[i] == items[i];
    forall code | code in after ensures IsLast(longer, after[code]) {
      if code != items[i].code {
        var j :| 0 <= j < |prefix| && prefix[j] == byCode[code] && forall k :: j < k < |prefix| ==> prefix[k].code != code;
        assert longer[j] == byCode[code];
      }
    }
  }

  method GenerateChecklist(snapshot: Snapshot) returns (ordered: seq<Item>)
    ensures ordered == Checklist(EvaluateSignals(snapshot))
  {
    var s := EvaluateSignals(snapshot);
    SignalBounds(snapshot);
    var items := AddEvidenceItems(s);
    items := AddReviewItems(s, items);
    items := AddClosingItems(s, items);
    assert items == Checklist(s);
    ordered := Reorder(items);
    AlreadyOrdered(items, ordered, ItemOf(s));
  }

  lemma SignalBounds(snapshot: Snapshot)
    ensures var s := EvaluateSignals(snapshot);
            s.withHash <= s.total && s.withMetadata <= s.total && s.withCustody <= s.total
  {
    KeepMembers(snapshot.evidence, HasHash);
    KeepMembers(snapshot.evidence, HasMetadata);
    KeepMembers(snapshot.evidence, HasCustody(snapshot.custody));
  }

  /** Items that come in the order of the policy stay as they are. */
  lemma AlreadyOrdered(items: seq<Item>, ordered: seq<Item>, make: Code -> Item)
    requires items == Each(CHECKLIST, make) && forall code :: make(code).code == code
    requires |ordered| == |CHECKLIST| && forall i :: 0 <= i < |CHECKLIST| ==> ordered[i].code == CHECKLIST[i]
    requires forall i :: 0 <= i < |CHECKLIST| ==>
               IsLast(items, ordered[i]) || forall item :: item in items ==> item.code != CHECKLIST[i]
    ensures ordered == items
  {
    PolicyDistinct();
    forall i | 0 <= i < |CHECKLIST| ensures ordered[i] == items[i] {
      assert items[i] in items && items[i].code == CHECKLIST[i];
      var j :| 0 <= j < |items| && items[j] == ordered[i];
      assert items[j].code == CHECKLIST[j];
    }
  }

  lemma PolicyDistinct()
    ensures forall i, j :: 0 <= i < j < |CHECKLIST| ==> CHECKLIST[i] != CHECKLIST[j]
  {}

  // ----- what blocks ---------------------------------------------------------------------

  /** Some item other than the final validation blocks. */
  ghost predicate OtherBlocks(s: Signals) {
    exists code :: code != FinalValidation && Blocks(code, s)
  }

  /** For any snapshot the final validation blocks exactly when another item blocks or a conflict
      is open. */
  lemma FinalBlocksWhen(snapshot: Snapshot)
    ensures var s := EvaluateSignals(snapshot);
            Blocks(FinalValidation, s) <==> OtherBlocks(s) || snapshot.openConflicts != []
  {
    SignalBounds(snapshot);
    var s := EvaluateSignals(snapshot);
    if !AllSound(s) && s.openConflicts == 0 {
      assert || Blocks(EvidenceIntegrity, s) || Blocks(ChainOfCustodyComplete, s)
             || Blocks(TimelineReviewed, s) || Blocks(FusionReviewed, s);
    }
  }

  function BlockerCount(s: Signals): nat { Count(Checklist(s), IsBlocking) }

  lemma CodeInPolicy(code: Code) returns (i: int)
    ensures 0 <= i < |CHECKLIST| && CHECKLIST[i] == code
  {
    i := match code {
      case EvidenceIntegrity => 0 case Sha256Verified => 1 case MetadataVerified => 2 case ChainOfCustodyComplete => 3
      case TimelineReviewed => 4 case AiFindingsReviewed => 5 case FusionReviewed => 6 case CorrelationsReviewed => 7
      case KnowledgeGraphReviewed => 8 case HypothesesReviewed => 9 case RecommendationsReviewed => 10
      case ReportReviewed => 11 case FinalValidation => 12
    };
  }

  /** The final validation is the last item. */
  lemma CountWithFinal(s: Signals)
    ensures BlockerCount(s) > 0 <==> OtherBlocks(s) || Blocks(FinalValidation, s)
    ensures BlockerCount(s) == 1 && Blocks(FinalValidation, s) ==> !OtherBlocks(s)
    ensures BlockerCount(s) > 1 ==> OtherBlocks(s)
  {
    var items := Checklist(s);
    var others := items[..12];
    assert items == others + [ItemFor(FinalValidation, s)];
    KeepSplit(others, [ItemFor(FinalValidation, s)], IsBlocking);
    assert [ItemFor(FinalValidation, s)][1..] == [];
    assert Keep([ItemFor(FinalValidation, s)], IsBlocking) ==
           if Blocks(FinalValidation, s) then [ItemFor(FinalValidation, s)] else [];
    CountPositive(others, IsBlocking);
    if item :| item in others && IsBlocking(item) {
      assert item.code != FinalValidation && Blocks(item.code, s);
    }
    if code :| code != FinalValidation && Blocks(code, s) {
      var i := CodeInPolicy(code);
      assert others[i] == ItemFor(code, s) && others[i] in others;
    }
  }

  /** A lone blocker is the final validation, and only an open conflict that no list of conflicts
      accounts for can cause it. */
  lemma LoneBlocker(snapshot: Snapshot)
    ensures var s := EvaluateSignals(snapshot);
            BlockerCount(s) == 1 && Blocks(FinalValidation, s) <==> snapshot.openConflicts != [] && !OtherBlocks(s)
    ensures var s := EvaluateSignals(snapshot); BlockerCount(s) == 1 ==> Blocks(FinalValidation, s)
  {
    var s := EvaluateSignals(snapshot);
    FinalBlocksWhen(snapshot);
    CountWithFinal(s);
  }

  /** In a snapshot as it is collected, the final validation blocks exactly when another item
      does, so there is never a single blocker. */
  lemma CollectedNeverLone(snapshot: Snapshot)
    requires IsCollected(snapshot)
    ensures var s := EvaluateSignals(snapshot);
            (Blocks(FinalValidation, s) <==> OtherBlocks(s)) && BlockerCount(s) != 1
  {
    var s := EvaluateSignals(snapshot);
    FinalBlocksWhen(snapshot);
    LoneBlocker(snapshot);
    if snapshot.openConflicts != [] {
      assert Blocks(TimelineReviewed, s) || Blocks(FusionReviewed, s);
    }
  }

  /** A list in the policy's order whose blocking items are all outstanding. */
  ghost predicate Sound(items: seq<Item>) {
    && Each(items, CodeOf) == CHECKLIST
    && forall i :: 0 <= i < |items| ==> (items[i].blocking ==> items[i].outstanding)
  }

  lemma ChecklistSound(s: Signals)
    ensures Sound(Checklist(s))
  {
    EachCode(CHECKLIST, ItemOf(s));
    forall i | 0 <= i < |Checklist(s)| && Checklist(s)[i].blocking ensures Checklist(s)[i].outstanding {
      assert Checklist(s)[i] == ItemFor(CHECKLIST[i], s);
    }
  }

  lemma EachCode(codes: seq<Code>, make: Code -> Item)
    requires forall code :: make(code).code == code
    ensures Each(Each(codes, make), CodeOf) == codes
  {
    var items := Each(codes, make);
    forall i | 0 <= i < |codes| ensures Each(items, CodeOf)[i] == codes[i] {
      assert items[i] == make(codes[i]);
      assert Each(items, CodeOf)[i] == CodeOf(items[i]);
    }
  }

  // ----- ratios --------------------------------------------------------------------------

  ghost predicate Ratios(m: Metrics) {
    && 0 <= m.validation <= 10000 && 0 <= m.evidenceCoverage <= 10000
    && 0 <= m.reviewCompletion <= 10000 && 0 <= m.approvalCompletion <= 10000
  }

  lemma CountRatio<T>(xs: seq<T>, p: T -> bool)
    ensures 0 <= TenThousandths(Count(xs, p), AtLeastOne(|xs|)) <= 10000
  {
    KeepMembers(xs, p);
    RatioInUnitInterval(Count(xs, p), AtLeastOne(|xs|));
  }

  lemma CoverageRatio(snapshot: Snapshot)
    ensures var s := EvaluateSignals(snapshot); 0 <= EvidenceCoverage(s.withHash, s.total) <= 10000
  {
    SignalBounds(snapshot);
    var s := EvaluateSignals(snapshot);
    if s.total > 0 {
      RatioInUnitInterval(s.withHash, s.total);
    }
  }

  /** Approval is complete exactly when all four roles approved; rounding cannot feign it. */
  lemma ApprovalComplete(approved: set<Role>)
    ensures 0 <= ApprovalCompletion(approved) <= 10000
    ensures ApprovalCompletion(approved) >= 10000 <==> forall role: Role :: role in approved
  {
    var p := (role: Role) => role in approved;
    KeepMembers(REQUIRED, p);
    RatioInUnitInterval(Count(REQUIRED, p), |REQUIRED|);
    RatioThreshold(Count(REQUIRED, p), |REQUIRED|, 10000);
    RolesCounted(REQUIRED, p);
    forall role: Role ensures role in REQUIRED {
      match role {
        case TechnicalReviewer => assert REQUIRED[0] == role;
        case ForensicReviewer => assert REQUIRED[1] == role;
        case LeadInvestigator => assert REQUIRED[2] == role;
        case CaseSupervisor => assert REQUIRED[3] == role;
      }
    }
    if forall role :: role in REQUIRED ==> p(role) {
      forall role: Role ensures role in approved {
        assert role in REQUIRED && p(role);
      }
    }
  }

  lemma {:induction false} RolesCounted(roles: seq<Role>, p: Role -> bool)
    ensures Count(roles, p) <= |roles|
    ensures Count(roles, p) == |roles| <==> forall role :: role in roles ==> p(role)
  {
    if roles != [] {
      RolesCounted(roles[1..], p);
      assert roles == [roles[0]] + roles[1..];
      assert roles[0] in roles;
    }
  }
}
