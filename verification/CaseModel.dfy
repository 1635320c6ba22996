/** Evidence items, conflicts and verdicts of the case synthesis (backend/app/case_intelligence). */
module CaseModel {
  import opened Bags
  import opened Numbers
  import opened Options
  import opened Sorting
  import opened Text
  import Correlation = CorrelationModel

  type Uuid = Correlation.Uuid

  datatype Verdict = Genuine | Suspicious | PotentialFraud | Inconclusive | InsufficientEvidence | Unavailable

  datatype Status = NotAnalyzed | Analyzed | Inconclusive | InsufficientEvidence | Unavailable | Failed

  /** One evidence item with the outcome of its latest fusion run; times are in microseconds. */
  datatype Participation = Participation(
    id: Uuid,
    hash: string,
    status: Status,
    verdict: Option<Verdict>,
    risk: Option<real>,
    confidence: Option<real>,
    supporting: seq<string>,
    contradicting: seq<string>,
    modalities: seq<string>,
    completedAt: Option<int>)

  /** What a conflict's identifier is made from; the identifier is its text. */
  datatype Label =
    | TemporalInconsistency(earliest: Uuid, latest: Uuid)
    | ProvenanceInconsistency(owner: Uuid)
    | VerdictDisagreement(suspicious: seq<Uuid>)
    | ConfidenceDisagreement
    | ForensicContradiction(owner: Uuid)

  datatype Severity = Medium | High

  datatype Conflict = Conflict(tag: Label, evidence: seq<Uuid>, findings: seq<string>, severity: Severity)

  /** `','.join(...)`. */
  function Joined(ids: seq<Uuid>): string {
    if ids == [] then "" else if |ids| == 1 then ids[0] else ids[0] + "," + Joined(ids[1..])
  }

  function LabelText(tag: Label): string {
    match tag
    case TemporalInconsistency(earliest, latest) =>
      "temporal:" + earliest + ":" + latest + ":fusion_completed_at:fusion_completed_at"
    case ProvenanceInconsistency(owner) => "provenance:" + owner
    case VerdictDisagreement(suspicious) => "verdict_disagreement:" + Joined(suspicious)
    case ConfidenceDisagreement => "confidence_disagreement:case"
    case ForensicContradiction(owner) => "forensic_contradiction:" + owner
  }

  function ConflictId(c: Conflict): string { LabelText(c.tag) }

  predicate IsSuspicious(item: Participation) {
    item.verdict == Some(Suspicious) || item.verdict == Some(PotentialFraud)
  }

  predicate IsGenuine(item: Participation) { item.verdict == Some(Genuine) }

  function IdOf(item: Participation): Uuid { item.id }

  // ----- consistency of one case ---------------------------------------------------------

  predicate Completed(item: Participation) { item.completedAt.Some? }

  function CompletedAt(item: Participation): int {
    if item.completedAt.Some? then item.completedAt.value else 0
  }

  predicate EarlierOrSame(x: Participation, y: Participation) { CompletedAt(x) <= CompletedAt(y) }

  function TemporalConflict(earliest: Participation, latest: Participation): Conflict {
    Conflict(TemporalInconsistency(earliest.id, latest.id), [earliest.id, latest.id], [], Medium)
  }

  /** Completion times more than a day apart: one conflict between the first and the last. */
  function TemporalConflicts(items: seq<Participation>): seq<Conflict> {
    var rows := Sorted(Keep(items, Completed), EarlierOrSame);
    if |rows| < 2 then []
    else
      var earliest, latest := rows[0], rows[|rows| - 1];
      if CompletedAt(latest) - CompletedAt(earliest) <= DAY then [] else [TemporalConflict(earliest, latest)]
  }

  /** An entry of the chain of custody; the digest is missing when the entry records none. */
  datatype CustodyEvent = CustodyEvent(owner: Uuid, digest: Option<string>)

  /** The digests the chain of custody records for an item. */
  function CustodyHashes(custody: seq<CustodyEvent>, id: Uuid): set<string> {
    set e | e in custody && e.owner == id && e.digest.Some? :: e.digest.value
  }

  predicate Mismatched(custody: seq<CustodyEvent>, item: Participation) {
    CustodyHashes(custody, item.id) != {} && item.hash !in CustodyHashes(custody, item.id)
  }

  function ProvenanceConflict(item: Participation): Conflict {
    Conflict(ProvenanceInconsistency(item.id), [item.id], [], High)
  }

  function ProvenanceConflicts(items: seq<Participation>, custody: seq<CustodyEvent>): seq<Conflict> {
    Each(Keep(items, item => Mismatched(custody, item)), ProvenanceConflict)
  }

  function Consistency(items: seq<Participation>, custody: seq<CustodyEvent>): seq<Conflict> {
    TemporalConflicts(items) + ProvenanceConflicts(items, custody)
  }

  // ----- disagreement between items ------------------------------------------------------

  /** `sorted(...)` on identifiers. */
  function SortedIds(ids: seq<Uuid>): seq<Uuid> { Sorted(ids, (x: Uuid, y: Uuid) => Le(x, y)) }

  function Flat(items: seq<Participation>): seq<string> {
    if items == [] then [] else items[0].supporting + Flat(items[1..])
  }

  function VerdictConflicts(items: seq<Participation>): seq<Conflict> {
    var suspicious := Each(Keep(items, IsSuspicious), IdOf);
    var genuine := Each(Keep(items, IsGenuine), IdOf);
    if suspicious == [] || genuine == [] then []
    else
      [Conflict(VerdictDisagreement(SortedIds(suspicious)), SortedIds(suspicious + genuine), Flat(items), High)]
  }

  predicate HasConfidence(item: Participation) { item.confidence.Some? }

  function ConfidenceOf(item: Participation): real {
    if item.confidence.Some? then item.confidence.value else 0.0
  }

  function Largest(xs: seq<real>): (m: real)
    requires xs != []
    ensures m in xs && forall x :: x in xs ==> x <= m
  {
    if |xs| == 1 then xs[0]
    else
      var rest := Largest(xs[1..]);
      assert xs == [xs[0]] + xs[1..];
      if xs[0] >= rest then xs[0] else rest
  }

  function Smallest(xs: seq<real>): (m: real)
    requires xs != []
    ensures m in xs && forall x :: x in xs ==> m <= x
  {
    if |xs| == 1 then xs[0]
    else
      var rest := Smallest(xs[1..]);
      assert xs == [xs[0]] + xs[1..];
      if xs[0] <= rest then xs[0] else rest
  }

  function ConfidenceConflicts(items: seq<Participation>): seq<Conflict> {
    var rows := Keep(items, HasConfidence);
    var values := Each(rows, ConfidenceOf);
    if |rows| >= 2 && Largest(values) - Smallest(values) >= 0.4 then
      [Conflict(ConfidenceDisagreement, Each(rows, IdOf), [], Medium)]
    else []
  }

  predicate Contradicted(item: Participation) {
    item.contradicting != [] && IsSuspicious(item)
  }

  function ContradictionConflict(item: Participation): Conflict {
    Conflict(ForensicContradiction(item.id), [item.id], item.contradicting, Medium)
  }

  function ContradictionConflicts(items: seq<Participation>): seq<Conflict> {
    Each(Keep(items, Contradicted), ContradictionConflict)
  }

  /** All conflicts before deduplication, in the order in which they are raised. */
  function Raised(items: seq<Participation>, consistency: seq<Conflict>): seq<Conflict> {
    consistency + VerdictConflicts(items) + ConfidenceConflicts(items) + ContradictionConflicts(items)
  }
}
