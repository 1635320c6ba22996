/** Case review (backend/app/case_review): signals, checklist items, metrics and stages. */
module ReviewModel {
  import opened Bags
  import opened Options
  import opened Rounding
  import opened Text

  // ----- what is known about a case ------------------------------------------------------

  /** An evidence row; an empty hash means there is none. */
  datatype Evidence = Evidence(id: string, hash: string, hasMetadata: bool)

  datatype OpenConflict = TimelineConflict(id: string) | FusionConflict(id: string)

  datatype Snapshot = Snapshot(
    evidence: seq<Evidence>,
    custody: map<string, int>,
    timelineEvents: seq<string>,
    timelineConflicts: seq<string>,
    aiFindings: seq<string>,
    fusionRuns: seq<string>,
    fusionConflicts: seq<string>,
    correlations: seq<string>,
    knowledgeGraphs: seq<string>,
    hypotheses: seq<string>,
    recommendations: seq<string>,
    reports: seq<string>,
    openWorkflowTasks: int,
    workflowCompletion: real,
    openConflicts: seq<OpenConflict>)

  /** The open conflicts of a collected snapshot: those of the timeline, then those of the fusion
      runs. */
  ghost predicate IsCollected(s: Snapshot) {
    s.openConflicts ==
      Each(s.timelineConflicts, (id: string) => TimelineConflict(id)) + Each(s.fusionConflicts, (id: string) => FusionConflict(id))
  }

  predicate HasHash(e: Evidence) { e.hash != "" }
  predicate HasMetadata(e: Evidence) { e.hasMetadata }

  function HasCustody(custody: map<string, int>): Evidence -> bool {
    (e: Evidence) => e.id in custody && custody[e.id] > 0
  }

  datatype Signals = Signals(
    total: nat,
    withHash: nat,
    withMetadata: nat,
    withCustody: nat,
    hasTimeline: bool,
    timelineConflicts: nat,
    hasAiFindings: bool,
    hasFusion: bool,
    fusionConflicts: nat,
    hasCorrelations: bool,
    hasKnowledgeGraph: bool,
    hasHypotheses: bool,
    hasRecommendations: bool,
    hasReports: bool,
    openWorkflowTasks: int,
    workflowCompletion: real,
    openConflicts: nat)

  function EvaluateSignals(s: Snapshot): Signals {
    Signals(|s.evidence|, Count(s.evidence, HasHash), Count(s.evidence, HasMetadata), Count(s.evidence, HasCustody(s.custody)),
            s.timelineEvents != [], |s.timelineConflicts|, s.aiFindings != [], s.fusionRuns != [], |s.fusionConflicts|,
            s.correlations != [], s.knowledgeGraphs != [], s.hypotheses != [], s.recommendations != [], s.reports != [],
            s.openWorkflowTasks, s.workflowCompletion, |s.openConflicts|)
  }

  // ----- checklist items -----------------------------------------------------------------

  datatype Code =
    | EvidenceIntegrity | Sha256Verified | MetadataVerified | ChainOfCustodyComplete | TimelineReviewed
    | AiFindingsReviewed | FusionReviewed | CorrelationsReviewed | KnowledgeGraphReviewed | HypothesesReviewed
    | RecommendationsReviewed | ReportReviewed | FinalValidation

  /** The policy's list. */
  const CHECKLIST: seq<Code> :=
    [EvidenceIntegrity, Sha256Verified, MetadataVerified, ChainOfCustodyComplete, TimelineReviewed,
     AiFindingsReviewed, FusionReviewed, CorrelationsReviewed, KnowledgeGraphReviewed, HypothesesReviewed,
     RecommendationsReviewed, ReportReviewed, FinalValidation]

  datatype ItemStatus = Pending | Pass | Fail | Na | Blocked

  datatype Item = Item(code: Code, status: ItemStatus, suggested: ItemStatus, blocking: bool, outstanding: bool)

  predicate IsBlocking(item: Item) { item.blocking }
  predicate IsOutstanding(item: Item) { item.outstanding }
  function CodeOf(item: Item): Code { item.code }

  /** Codes of the blocking items, which stand for their titles. */
  function BlockingCodes(items: seq<Item>): seq<Code> { Each(Keep(items, IsBlocking), CodeOf) }
  function OutstandingCodes(items: seq<Item>): seq<Code> { Each(Keep(items, IsOutstanding), CodeOf) }

  // ----- approvals -----------------------------------------------------------------------

  datatype Role = TechnicalReviewer | ForensicReviewer | LeadInvestigator | CaseSupervisor

  const REQUIRED: seq<Role> := [TechnicalReviewer, ForensicReviewer, LeadInvestigator, CaseSupervisor]

  datatype Decision = Approved | Rejected | ChangesRequested | Deferred

  datatype Approval = Approval(role: Role, decision: Decision)

  function ApprovedRoles(approvals: seq<Approval>): set<Role> {
    set a | a in approvals && a.decision == Decision.Approved :: a.role
  }

  predicate HasDecision(approvals: seq<Approval>, d: Decision) {
    exists a :: a in approvals && a.decision == d
  }

  /** The share of the required roles that approved, in ten-thousandths. */
  function ApprovalCompletion(approved: set<Role>): int {
    TenThousandths(Count(REQUIRED, (role: Role) => role in approved), |REQUIRED|)
  }

  // ----- stages --------------------------------------------------------------------------

  datatype Stage = Pending | UnderReview | Validated | ChangesRequested | Approved | Rejected | Finalized

  function InferStage(blocking: nat, outstanding: nat, approvalPct: int, hasRejection: bool, hasChanges: bool, finalized: bool): Stage {
    if finalized then Finalized
    else if hasRejection then Stage.Rejected
    else if hasChanges then Stage.ChangesRequested
    else if approvalPct >= 10000 && blocking == 0 then Stage.Approved
    else if blocking == 0 && outstanding == 0 then Validated
    else if outstanding != 0 || blocking != 0 then UnderReview
    else Stage.Pending
  }

  // ----- metrics -------------------------------------------------------------------------

  /** Ratios in ten-thousandths, and counts. */
  datatype Metrics = Metrics(validation: int, evidenceCoverage: int, reviewCompletion: int, approvalCompletion: int,
                             outstanding: nat, blocking: nat)

  predicate IsPassed(item: Item) { item.status == Pass || item.status == Na || item.suggested == Pass || item.suggested == Na }
  predicate IsReviewed(item: Item) { item.status != ItemStatus.Pending || item.suggested != ItemStatus.Pending }

  function AtLeastOne(n: nat): (m: nat)
    ensures m > 0
  {
    if n == 0 then 1 else n
  }

  function EvidenceCoverage(withHash: nat, total: nat): int {
    if total == 0 then 0 else TenThousandths(withHash, total)
  }

  function ComputeMetrics(checklist: seq<Item>, total: nat, withHash: nat, approvalCompletion: int): Metrics {
    var n := AtLeastOne(|checklist|);
    Metrics(TenThousandths(Count(checklist, IsPassed), n), EvidenceCoverage(withHash, total),
            TenThousandths(Count(checklist, IsReviewed), n), approvalCompletion,
            Count(checklist, IsOutstanding), Count(checklist, IsBlocking))
  }

  // ----- reading what the user typed -----------------------------------------------------

  function Upper(c: char): char { if 'a' <= c <= 'z' then c - 'a' + 'A' else c }

  function Folded(s: string): string {
    var t := Strip(s);
    seq(|t|, i requires 0 <= i < |t| => Upper(t[i]))
  }

  function ParseStatus(s: string): Option<ItemStatus> {
    var t := Folded(s);
    if t == "PENDING" then Some(ItemStatus.Pending)
    else if t == "PASS" then Some(Pass)
    else if t == "FAIL" then Some(Fail)
    else if t == "NA" then Some(Na)
    else if t == "BLOCKED" then Some(Blocked)
    else None
  }

  /** What an item update asks for. */
  datatype NewStatus = Unchanged | Unreadable | To(status: ItemStatus)

  function ReadStatus(s: Option<string>): NewStatus {
    if s.None? then Unchanged
    else if ParseStatus(s.value).None? then Unreadable
    else To(ParseStatus(s.value).value)
  }

  function ParseDecision(s: string): Option<Decision> {
    var t := Folded(s);
    if t == "APPROVED" then Some(Decision.Approved)
    else if t == "REJECTED" then Some(Decision.Rejected)
    else if t == "CHANGES_REQUESTED" then Some(Decision.ChangesRequested)
    else if t == "DEFERRED" then Some(Deferred)
    else None
  }

  function ParseRole(s: string): Option<Role> {
    var t := Folded(s);
    if t == "TECHNICAL_REVIEWER" then Some(TechnicalReviewer)
    else if t == "FORENSIC_REVIEWER" then Some(ForensicReviewer)
    else if t == "LEAD_INVESTIGATOR" then Some(LeadInvestigator)
    else if t == "CASE_SUPERVISOR" then Some(CaseSupervisor)
    else None
  }
}
