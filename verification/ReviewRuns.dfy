/** Review runs (backend/app/case_review/service.py): generation, item updates and approvals, each
    followed by a stage computed from a fresh snapshot of the case. */
module ReviewRuns {
  import opened Bags
  import opened Options
  import opened ReviewChecklist
  import opened ReviewModel
  import opened ReviewOrder
  import opened Rounding

  // ----- a run as a value ----------------------------------------------------------------

  /** `items` are the stored rows in the order of their creation; a request names one by its
      position, which stands for its identifier. */
  datatype Run = Run(
    items: seq<Item>,
    approvals: seq<Approval>,
    stage: Stage,
    metrics: Metrics,
    outstanding: seq<Code>,
    blocking: seq<Code>,
    approvalCount: nat)

  datatype Error = ItemNotFound | InvalidInput

  datatype Outcome = Done | Failed(error: Error)

  /** The stage a snapshot and the approvals lead to. */
  function StageOf(live: Snapshot, approvals: seq<Approval>, finalized: bool): Stage {
    var checklist := Checklist(EvaluateSignals(live));
    InferStage(Count(checklist, IsBlocking), Count(checklist, IsOutstanding), ApprovalCompletion(ApprovedRoles(approvals)),
               HasDecision(approvals, Decision.Rejected), HasDecision(approvals, Decision.ChangesRequested), finalized)
  }

  function PlanMetrics(live: Snapshot, approvals: seq<Approval>): Metrics {
    var s := EvaluateSignals(live);
    ComputeMetrics(Checklist(s), s.total, s.withHash, ApprovalCompletion(ApprovedRoles(approvals)))
  }

  function Generated(s: Snapshot): Run {
    var items := Checklist(EvaluateSignals(s));
    Run(items, [], StageOf(s, [], false), PlanMetrics(s, []), OutstandingCodes(items), BlockingCodes(items), 0)
  }

  predicate StatusPassed(item: Item) { item.status == Pass || item.status == Na }
  predicate StatusReviewed(item: Item) { item.status != ItemStatus.Pending }

  /** The plan's metrics with the counts of the stored items. */
  function Recounted(m: Metrics, items: seq<Item>): Metrics {
    var n := AtLeastOne(|items|);
    m.(outstanding := |OutstandingCodes(items)|, blocking := |BlockingCodes(items)|,
       validation := TenThousandths(Count(items, StatusPassed), n),
       reviewCompletion := TenThousandths(Count(items, StatusReviewed), n))
  }

  /** Stage and metrics anew: the stage from the live snapshot, counts and lists from the stored
      items as they are read back. */
  function Recomputed(run: Run, live: Snapshot): Run {
    var listed := ItemsForRun(run.items);
    run.(stage := StageOf(live, run.approvals, run.stage == Finalized),
         metrics := Recounted(PlanMetrics(live, run.approvals), listed),
         outstanding := OutstandingCodes(listed),
         blocking := BlockingCodes(listed),
         approvalCount := |run.approvals|)
  }

  function WithStatus(item: Item, status: ItemStatus): Item {
    item.(status := status,
          outstanding := status == ItemStatus.Pending || status == Fail || status == Blocked,
          blocking := status == Fail || status == Blocked)
  }

  function Updated(run: Run, i: nat, status: NewStatus, live: Snapshot): (Run, Outcome) {
    if i >= |run.items| then (run, Failed(ItemNotFound))
    else if status.Unreadable? then (run, Failed(InvalidInput))
    else if status.Unchanged? then (Recomputed(run, live), Done)
    else (Recomputed(run.(items := run.items[i := WithStatus(run.items[i], status.status)]), live), Done)
  }

  /** Recording a decision in a role; either may be unreadable. */
  function WithApproval(run: Run, decision: Option<Decision>, role: Option<Role>, live: Snapshot): (Run, Outcome) {
    if decision.None? || role.None? then (run, Failed(InvalidInput))
    else (Recomputed(run.(approvals := run.approvals + [Approval(role.value, decision.value)]), live), Done)
  }

  // ----- the stored run ------------------------------------------------------------------

  method PlanReview(live: Snapshot, approvals: seq<Approval>, finalized: bool) returns (stage: Stage, metrics: Metrics)
    ensures stage == StageOf(live, approvals, finalized) && metrics == PlanMetrics(live, approvals)
  {
    var checklist := GenerateChecklist(live);
    var signals := EvaluateSignals(live);
    var approvalPct := ApprovalCompletion(ApprovedRoles(approvals));
    metrics := ComputeMetrics(checklist, signals.total, signals.withHash, approvalPct);
    stage := InferStage(Count(checklist, IsBlocking), Count(checklist, IsOutstanding), approvalPct,
                        HasDecision(approvals, Decision.Rejected), HasDecision(approvals, Decision.ChangesRequested), finalized);
  }

  method OverrideCounts(plan: Metrics, items: seq<Item>) returns (metrics: Metrics)
    ensures metrics == Recounted(plan, items)
  {
    metrics := plan.(outstanding := |OutstandingCodes(items)|, blocking := |BlockingCodes(items)|);
    var total := AtLeastOne(|items|);
    metrics := metrics.(validation := TenThousandths(Count(items, StatusPassed), total),
                        reviewCompletion := TenThousandths(Count(items, StatusReviewed), total));
  }

  class ReviewRun {
    var items: seq<Item>
    var approvals: seq<Approval>
    var stage: Stage
    var metrics: Metrics
    var outstanding: seq<Code>
    var blocking: seq<Code>
    var approvalCount: nat

    function View(): Run
      reads this
    {
      Run(items, approvals, stage, metrics, outstanding, blocking, approvalCount)
    }

    constructor Generate(s: Snapshot)
      ensures View() == Generated(s)
    {
      var checklist := GenerateChecklist(s);
      items, approvals, approvalCount := checklist, [], 0;
      stage := StageOf(s, [], false);
      metrics := PlanMetrics(s, []);
      outstanding, blocking := OutstandingCodes(checklist), BlockingCodes(checklist);
    }

    method RecomputeStage(live: Snapshot)
      modifies this
      ensures items == old(items) && approvals == old(approvals) && approvalCount == |approvals|
      ensures stage == StageOf(live, approvals, old(stage) == Finalized)
      ensures metrics == Recounted(PlanMetrics(live, approvals), ItemsForRun(items))
      ensures outstanding == OutstandingCodes(ItemsForRun(items)) && blocking == BlockingCodes(ItemsForRun(items))
    {
      var listed := ItemsForRun(items);
      stage, metrics := PlanReview(live, approvals, stage == Finalized);
      outstanding, blocking := OutstandingCodes(listed), BlockingCodes(listed);
      metrics := OverrideCounts(metrics, listed);
      approvalCount := |approvals|;
    }

    method UpdateItem(i: nat, status: Option<string>, live: Snapshot) returns (r: Outcome)
      modifies this
      ensures (View(), r) == Updated(old(View()), i, ReadStatus(status), live)
    {
      if i >= |items| {
        return Failed(ItemNotFound);
      }
      if status.Some? {
        var parsed := ParseStatus(status.value);
        if parsed.None? {
          return Failed(InvalidInput);
        }
        var item := items[i];
        item := item.(status := parsed.value);
        item := item.(outstanding := parsed.value == ItemStatus.Pending || parsed.value == Fail || parsed.value == Blocked);
        item := item.(blocking := parsed.value == Fail || parsed.value == Blocked);
        items := items[i := item];
      }
      RecomputeStage(live);
      return Done;
    }

    method RecordApproval(decision: string, role: string, live: Snapshot) returns (r: Outcome)
      modifies this
      ensures (View(), r) == WithApproval(old(View()), ParseDecision(decision), ParseRole(role), live)
    {
      var parsedDecision, parsedRole := ParseDecision(decision), ParseRole(role);
      if parsedDecision.None? || parsedRole.None? {
        return Failed(InvalidInput);
      }
      approvals := approvals + [Approval(parsedRole.value, parsedDecision.value)];
      RecomputeStage(live);
      return Done;
    }
  }

  // ----- histories -----------------------------------------------------------------------

  /** One request, with the snapshot the engine collects while serving it. */
  datatype Request =
    | UpdateRequest(i: nat, status: NewStatus, live: Snapshot)
    | ApprovalRequest(decision: Option<Decision>, role: Option<Role>, live: Snapshot)

  function Step(run: Run, q: Request): (Run, Outcome) {
    match q
    case UpdateRequest(i, status, live) => Updated(run, i, status, live)
    case ApprovalRequest(decision, role, live) => WithApproval(run, decision, role, live)
  }

  function After(s: Snapshot, requests: seq<Request>): Run {
    if requests == [] then Generated(s)
    else Step(After(s, requests[..|requests| - 1]), requests[|requests| - 1]).0
  }

  /** The snapshot the stage was last computed from. */
  function LastSeen(s: Snapshot, requests: seq<Request>): Snapshot {
    if requests == [] then s
    else
      var before, q := requests[..|requests| - 1], requests[|requests| - 1];
      if Step(After(s, before), q).1 == Done then q.live else LastSeen(s, before)
  }

  lemma StepStage(run: Run, q: Request)
    ensures var (next, outcome) := Step(run, q);
            if outcome == Done then next.stage == StageOf(q.live, next.approvals, run.stage == Finalized) else next == run
  {}

  lemma StageReached(live: Snapshot, approvals: seq<Approval>)
    ensures StageOf(live, approvals, false) != Finalized && StageOf(live, approvals, false) != Stage.Pending
  {}

  /** The stage is the one the last snapshot and all approvals lead to, and is never one of the
      two stages nothing leads to. */
  lemma {:induction false} StageFollows(s: Snapshot, requests: seq<Request>)
    ensures var run := After(s, requests);
            && run.stage == StageOf(LastSeen(s, requests), run.approvals, false)
            && run.stage != Finalized && run.stage != Stage.Pending
  {
    if requests == [] {
      StageReached(s, []);
    } else {
      var before, q := requests[..|requests| - 1], requests[|requests| - 1];
      StageFollows(s, before);
      StepStage(After(s, before), q);
      StageReached(LastSeen(s, requests), After(s, requests).approvals);
    }
  }

  /** Approved means: nobody rejected or asked for changes, all four roles approved, and the
      snapshot last seen had no blocker. */
  lemma ApprovedCharacterized(s: Snapshot, requests: seq<Request>)
    ensures var run := After(s, requests);
            run.stage == Stage.Approved <==>
              && !HasDecision(run.approvals, Decision.Rejected) && !HasDecision(run.approvals, Decision.ChangesRequested)
              && (forall role: Role :: Approval(role, Decision.Approved) in run.approvals)
              && BlockerCount(EvaluateSignals(LastSeen(s, requests))) == 0
  {
    var run := After(s, requests);
    StageFollows(s, requests);
    ApprovalComplete(ApprovedRoles(run.approvals));
    forall role: Role ensures role in ApprovedRoles(run.approvals) <==> Approval(role, Decision.Approved) in run.approvals {
      RoleApproved(run.approvals, role);
    }
  }

  lemma RoleApproved(approvals: seq<Approval>, role: Role)
    ensures role in ApprovedRoles(approvals) <==> Approval(role, Decision.Approved) in approvals
  {
    if role in ApprovedRoles(approvals) {
      var a :| a in approvals && a.decision == Decision.Approved && a.role == role;
      assert a == Approval(role, Decision.Approved);
    }
    if Approval(role, Decision.Approved) in approvals {
      var a := Approval(role, Decision.Approved);
      assert a in approvals && a.decision == Decision.Approved;
    }
  }

  /** Approvals are only ever appended. */
  lemma {:induction false} ApprovalsKept(s: Snapshot, requests: seq<Request>, n: nat)
    requires n <= |requests|
    ensures After(s, requests[..n]).approvals <= After(s, requests).approvals
    decreases |requests|
  {
    if n == |requests| {
      assert requests[..n] == requests;
    } else {
      var before := requests[..|requests| - 1];
      ApprovalsKept(s, before, n);
      assert before[..n] == requests[..n];
    }
  }

  lemma DecisionKept(s: Snapshot, requests: seq<Request>, n: nat, d: Decision)
    requires n <= |requests| && HasDecision(After(s, requests[..n]).approvals, d)
    ensures HasDecision(After(s, requests).approvals, d)
  {
    ApprovalsKept(s, requests, n);
    var early, late := After(s, requests[..n]).approvals, After(s, requests).approvals;
    var a :| a in early && a.decision == d;
    var i :| 0 <= i < |early| && early[i] == a;
    assert late[i] == a;
  }

  /** One rejection rejects the run for good. */
  lemma RejectedForever(s: Snapshot, requests: seq<Request>, n: nat)
    requires n <= |requests| && HasDecision(After(s, requests[..n]).approvals, Decision.Rejected)
    ensures After(s, requests).stage == Stage.Rejected
  {
    DecisionKept(s, requests, n, Decision.Rejected);
    StageFollows(s, requests);
  }

  /** One request for changes rules out approval for good. */
  lemma ChangesRuleOutApproval(s: Snapshot, requests: seq<Request>, n: nat)
    requires n <= |requests| && HasDecision(After(s, requests[..n]).approvals, Decision.ChangesRequested)
    ensures var stage := After(s, requests).stage; stage == Stage.ChangesRequested || stage == Stage.Rejected
  {
    DecisionKept(s, requests, n, Decision.ChangesRequested);
    StageFollows(s, requests);
  }

  // ----- the stored items ----------------------------------------------------------------

  /** What every stored run satisfies: one item of each code, none blocking that is not
      outstanding; lists and counts that name exactly the flagged items; ratios between 0 and 1. */
  ghost predicate Consistent(run: Run) {
    && Sound(run.items)
    && Names(run.outstanding, run.items, IsOutstanding) && run.metrics.outstanding == |run.outstanding|
    && Names(run.blocking, run.items, IsBlocking) && run.metrics.blocking == |run.blocking|
    && run.approvalCount == |run.approvals|
    && Ratios(run.metrics)
  }

  /** The lists come in the order of the codes' texts. */
  ghost predicate ListsInCodeOrder(run: Run) { InCodeOrder(run.outstanding) && InCodeOrder(run.blocking) }

  lemma PlanRatios(live: Snapshot, approvals: seq<Approval>)
    ensures Ratios(PlanMetrics(live, approvals))
  {
    var checklist := Checklist(EvaluateSignals(live));
    CountRatio(checklist, IsPassed);
    CountRatio(checklist, IsReviewed);
    CoverageRatio(live);
    ApprovalComplete(ApprovedRoles(approvals));
  }

  lemma RecomputedConsistent(run: Run, live: Snapshot)
    requires Sound(run.items)
    ensures Consistent(Recomputed(run, live)) && ListsInCodeOrder(Recomputed(run, live))
  {
    var listed := ItemsForRun(run.items);
    OneOfEach(run.items);
    ListedNames(run.items, IsOutstanding);
    ListedNames(run.items, IsBlocking);
    PlanRatios(live, run.approvals);
    CountRatio(listed, StatusPassed);
    CountRatio(listed, StatusReviewed);
  }

  lemma GeneratedConsistent(s: Snapshot)
    ensures Consistent(Generated(s))
  {
    var items := Checklist(EvaluateSignals(s));
    ChecklistSound(EvaluateSignals(s));
    CodesName(items, IsOutstanding);
    CodesName(items, IsBlocking);
    PlanRatios(s, []);
  }

  lemma EditedSound(items: seq<Item>, i: nat, status: ItemStatus)
    requires Sound(items) && i < |items|
    ensures Sound(items[i := WithStatus(items[i], status)])
  {
    var edited := items[i := WithStatus(items[i], status)];
    forall j | 0 <= j < |items| ensures Each(edited, CodeOf)[j] == Each(items, CodeOf)[j] {
      assert CodeOf(edited[j]) == CodeOf(items[j]);
    }
    assert Each(edited, CodeOf) == Each(items, CodeOf);
  }

  /** Some request has been served. */
  predicate Served(s: Snapshot, requests: seq<Request>) {
    requests != []
    && (Step(After(s, requests[..|requests| - 1]), requests[|requests| - 1]).1 == Done || Served(s, requests[..|requests| - 1]))
  }

  /** Every stored run is consistent.  Its lists are in the policy's order as they were generated,
      and in the order of the codes' texts once any request has been served. */
  lemma {:induction false} AlwaysConsistent(s: Snapshot, requests: seq<Request>)
    ensures Consistent(After(s, requests))
    ensures if Served(s, requests) then ListsInCodeOrder(After(s, requests)) else After(s, requests) == Generated(s)
  {
    if requests == [] {
      GeneratedConsistent(s);
    } else {
      var before, q := After(s, requests[..|requests| - 1]), requests[|requests| - 1];
      AlwaysConsistent(s, requests[..|requests| - 1]);
      StepConsistent(before, q);
    }
  }

  lemma StepConsistent(run: Run, q: Request)
    requires Consistent(run)
    ensures var (next, outcome) := Step(run, q);
            Consistent(next) && if outcome == Done then ListsInCodeOrder(next) else next == run
  {
    match q {
      case UpdateRequest(i, status, live) =>
        if i < |run.items| && status.Unchanged? {
          RecomputedConsistent(run, live);
        } else if i < |run.items| && status.To? {
          EditedSound(run.items, i, status.status);
          RecomputedConsistent(run.(items := run.items[i := WithStatus(run.items[i], status.status)]), live);
        }
      case ApprovalRequest(decision, role, live) =>
        if decision.Some? && role.Some? {
          RecomputedConsistent(run.(approvals := run.approvals + [Approval(role.value, decision.value)]), live);
        }
    }
  }

  // ----- what the reported blockers are --------------------------------------------------

  /** The last readable status a run of requests sets for item `i`. */
  function LastStatus(requests: seq<Request>, i: nat): Option<ItemStatus> {
    if requests == [] then None
    else
      var q := requests[|requests| - 1];
      if q.UpdateRequest? && q.i == i && q.status.To? then Some(q.status.status)
      else LastStatus(requests[..|requests| - 1], i)
  }

  /** An item is as it was generated, but for the last status set. */
  function ItemAfter(item: Item, status: Option<ItemStatus>): Item {
    if status.None? then item else WithStatus(item, status.value)
  }

  lemma StepItems(run: Run, q: Request, i: nat)
    requires i < |run.items|
    ensures var next := Step(run, q).0;
            && |next.items| == |run.items|
            && next.items[i] == if q.UpdateRequest? && q.i == i && q.status.To? then WithStatus(run.items[i], q.status.status)
                                else run.items[i]
  {}

  lemma SecondStatus(item: Item, first: ItemStatus, second: ItemStatus)
    ensures WithStatus(WithStatus(item, first), second) == WithStatus(item, second)
  {}

  lemma {:induction false} ItemFollows(s: Snapshot, requests: seq<Request>, i: nat)
    requires i < |CHECKLIST|
    ensures var items := After(s, requests).items;
            && |items| == |CHECKLIST|
            && items[i] == ItemAfter(Checklist(EvaluateSignals(s))[i], LastStatus(requests, i))
  {
    if requests != [] {
      var before, q := requests[..|requests| - 1], requests[|requests| - 1];
      ItemFollows(s, before, i);
      StepItems(After(s, before), q, i);
      var item := Checklist(EvaluateSignals(s))[i];
      if q.UpdateRequest? && q.i == i && q.status.To? && LastStatus(before, i).Some? {
        SecondStatus(item, LastStatus(before, i).value, q.status.status);
      }
    }
  }

  /** Item `i` still blocks: it was last set to a failing or blocked status, or was never set and
      blocked when it was generated. */
  predicate StillBlocks(s: Snapshot, requests: seq<Request>, i: nat)
    requires i < |CHECKLIST|
  {
    match LastStatus(requests, i)
    case Some(status) => status == Fail || status == Blocked
    case None => Blocks(CHECKLIST[i], EvaluateSignals(s))
  }

  /** Over every run, the blocking flag of an item is what the last status set for it says, or
      what its generation said. */
  lemma BlockingFollows(s: Snapshot, requests: seq<Request>, i: nat)
    requires i < |CHECKLIST|
    ensures var run := After(s, requests);
            && |run.items| == |CHECKLIST| && run.items[i].code == CHECKLIST[i]
            && (run.items[i].blocking <==> StillBlocks(s, requests, i))
            && (CHECKLIST[i] in run.blocking <==> StillBlocks(s, requests, i))
  {
    var run, item := After(s, requests), Checklist(EvaluateSignals(s))[i];
    ItemFollows(s, requests, i);
    assert item == ItemFor(CHECKLIST[i], EvaluateSignals(s));
    AlwaysConsistent(s, requests);
    OneOfEach(run.items);
    OnlyFlag(run.items, IsBlocking, i);
  }

  lemma OnlyFlag(items: seq<Item>, p: Item -> bool, i: nat)
    requires DistinctCodes(items) && i < |items|
    ensures Flagged(items, p, items[i].code) <==> p(items[i])
  {}

  /** A run reports no blocker exactly when no item still blocks. */
  lemma NothingReported(s: Snapshot, requests: seq<Request>)
    ensures After(s, requests).blocking == [] <==> forall i :: 0 <= i < |CHECKLIST| ==> !StillBlocks(s, requests, i)
  {
    var blocking := After(s, requests).blocking;
    forall i | 0 <= i < |CHECKLIST| ensures CHECKLIST[i] in blocking <==> StillBlocks(s, requests, i) {
      BlockingFollows(s, requests, i);
    }
    if blocking != [] {
      var i := CodeInPolicy(blocking[0]);
      assert StillBlocks(s, requests, i);
    }
  }

  /** When an approved run reports no blocker: approval looks at the decisions and the case as it
      was last seen, the report at the case as it was generated and at the statuses set since. */
  lemma ApprovedAndClear(s: Snapshot, requests: seq<Request>)
    ensures var run := After(s, requests);
            run.stage == Stage.Approved && run.blocking == [] <==>
              && !HasDecision(run.approvals, Decision.Rejected) && !HasDecision(run.approvals, Decision.ChangesRequested)
              && (forall role: Role :: Approval(role, Decision.Approved) in run.approvals)
              && BlockerCount(EvaluateSignals(LastSeen(s, requests))) == 0
              && forall i :: 0 <= i < |CHECKLIST| ==> !StillBlocks(s, requests, i)
  {
    ApprovedCharacterized(s, requests);
    NothingReported(s, requests);
  }

  // ----- two views of the blockers -------------------------------------------------------

  lemma ApprovalStep(run: Run, role: Role, live: Snapshot)
    ensures var (next, outcome) := Step(run, ApprovalRequest(Some(Decision.Approved), Some(role), live));
            && outcome == Done && next.items == run.items
            && next.approvals == run.approvals + [Approval(role, Decision.Approved)]
  {}

  function ApprovalBy(live: Snapshot): Role -> Request {
    (role: Role) => ApprovalRequest(Some(Decision.Approved), Some(role), live)
  }

  function Consent(role: Role): Approval { Approval(role, Decision.Approved) }

  function Fold(step: (Run, Request) -> (Run, Outcome), start: Run, requests: seq<Request>): Run {
    if requests == [] then start
    else step(Fold(step, start, requests[..|requests| - 1]), requests[|requests| - 1]).0
  }

  lemma {:induction false} AfterIsFold(s: Snapshot, requests: seq<Request>)
    ensures After(s, requests) == Fold(Step, Generated(s), requests)
  {
    if requests != [] {
      AfterIsFold(s, requests[..|requests| - 1]);
    }
  }

  ghost predicate Appends(step: (Run, Request) -> (Run, Outcome), run: Run, role: Role, live: Snapshot) {
    var next := step(run, ApprovalBy(live)(role)).0;
    next.items == run.items && next.approvals == run.approvals + [Consent(role)]
  }

  lemma {:induction false} ApprovedInTurn(step: (Run, Request) -> (Run, Outcome), start: Run, live: Snapshot, roles: seq<Role>)
    requires forall run, role :: Appends(step, run, role, live)
    requires start.approvals == []
    ensures var run := Fold(step, start, Each(roles, ApprovalBy(live)));
            run.approvals == Each(roles, Consent) && run.items == start.items
    decreases |roles|
  {
    if roles != [] {
      var n := |roles| - 1;
      var before, requests := Each(roles[..n], ApprovalBy(live)), Each(roles, ApprovalBy(live));
      ApprovedInTurn(step, start, live, roles[..n]);
      assert requests[..n] == before && requests[n] == ApprovalBy(live)(roles[n]);
      assert Appends(step, Fold(step, start, before), roles[n], live);
      assert Each(roles[..n], Consent) + [Consent(roles[n])] == Each(roles, Consent);
    }
  }

  lemma LastApprovalSeen(s: Snapshot, requests: seq<Request>, live: Snapshot, role: Role)
    requires requests != [] && requests[|requests| - 1] == ApprovalBy(live)(role)
    ensures LastSeen(s, requests) == live
  {
    ApprovalStep(After(s, requests[..|requests| - 1]), role, live);
  }

  lemma AllConsent(approvals: seq<Approval>)
    requires approvals == Each(REQUIRED, Consent)
    ensures forall a :: a in approvals ==> a.decision == Decision.Approved
    ensures forall role: Role :: Approval(role, Decision.Approved) in approvals
  {
    forall i | 0 <= i < |approvals| ensures approvals[i].decision == Decision.Approved {
      assert approvals[i] == Consent(REQUIRED[i]);
    }
    forall role: Role ensures Approval(role, Decision.Approved) in approvals {
      var i := match role { case TechnicalReviewer => 0 case ForensicReviewer => 1 case LeadInvestigator => 2 case CaseSupervisor => 3 };
      assert approvals[i] == Consent(role);
    }
  }

  lemma AllApprove(s: Snapshot, live: Snapshot)
    ensures var requests := Each(REQUIRED, ApprovalBy(live));
            var run := After(s, requests);
            run.approvals == Each(REQUIRED, Consent) && run.items == Generated(s).items && LastSeen(s, requests) == live
  {
    var requests := Each(REQUIRED, ApprovalBy(live));
    forall run, role ensures Appends(Step, run, role, live) {
      ApprovalStep(run, role, live);
    }
    AfterIsFold(s, requests);
    ApprovedInTurn(Step, Generated(s), live, REQUIRED);
    LastApprovalSeen(s, requests, live, CaseSupervisor);
  }

  lemma GeneratedBlockers(s: Snapshot)
    ensures |BlockingCodes(Generated(s).items)| == BlockerCount(EvaluateSignals(s))
  {}

  /** When the case has been put right since the run was generated, four approvals alone approve a
      run that still reports its blockers. */
  lemma ApprovedDespiteBlockers(s: Snapshot, live: Snapshot)
    requires BlockerCount(EvaluateSignals(s)) > 0 && BlockerCount(EvaluateSignals(live)) == 0
    ensures var run := After(s, Each(REQUIRED, ApprovalBy(live))); run.stage == Stage.Approved && run.blocking != []
  {
    var requests := Each(REQUIRED, ApprovalBy(live));
    AllApprove(s, live);
    AlwaysConsistent(s, requests);
    AllConsent(After(s, requests).approvals);
    ApprovedCharacterized(s, requests);
    GeneratedBlockers(s);
  }

  /** A case without any evidence. */
  const BARE := Snapshot([], map[], [], [], [], [], [], [], [], [], [], [], 0, 0.0, [])

  /** The same case once one hashed item with a custody record has been added. */
  const REPAIRED := BARE.(evidence := [Evidence("e", "h", false)], custody := map["e" := 1])

  lemma BareBlocks()
    ensures BlockerCount(EvaluateSignals(BARE)) > 0
  {
    FinalBlocksWhen(BARE);
    assert Blocks(EvidenceIntegrity, EvaluateSignals(BARE));
    CountWithFinal(EvaluateSignals(BARE));
  }

  lemma RepairedIsClear()
    ensures BlockerCount(EvaluateSignals(REPAIRED)) == 0
  {
    var e := REPAIRED.evidence;
    assert e[1..] == [];
    assert HasHash(e[0]) && HasCustody(REPAIRED.custody)(e[0]);
    assert Count(e, HasHash) == 1 && Count(e, HasCustody(REPAIRED.custody)) == 1;
    CountWithFinal(EvaluateSignals(REPAIRED));
    FinalBlocksWhen(REPAIRED);
  }

  /** That does happen: a run generated before the first evidence, approved after it. */
  lemma ApprovedBeforeCleared()
    ensures var run := After(BARE, Each(REQUIRED, ApprovalBy(REPAIRED))); run.stage == Stage.Approved && run.blocking != []
  {
    BareBlocks();
    RepairedIsClear();
    ApprovedDespiteBlockers(BARE, REPAIRED);
  }
}
