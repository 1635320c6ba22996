/** Data and pairwise definitions of the cross-evidence correlation engine
    (backend/app/correlation). */
module CorrelationModel {
  import opened Numbers
  import opened Options
  import opened Rounding
  import opened Text

  /** The canonical text of a UUID: 36 characters, none of them a colon. */
  type Uuid = s: string | |s| == 36 && ':' !in s witness "00000000-0000-0000-0000-000000000000"

  /** A timeline event; `at` is in microseconds and missing when it is not a datetime. */
  datatype Event = Event(id: string, at: Option<int>, uncertainty: int)

  /** A signature or speaker match with another evidence item, and the run that found it. */
  datatype Match = Match(other: Uuid, support: string)

  datatype Signals = Signals(
    id: Uuid,
    hash: string,
    filename: string,
    emails: set<string>,
    phones: set<string>,
    identifiers: set<string>,
    qrPayloads: set<string>,
    cameraModels: set<string>,
    deviceModels: set<string>,
    locations: set<string>,
    documentIds: set<string>,
    logoLabels: set<string>,
    logoFindingIds: seq<string>,
    extractionIds: seq<string>,
    signaturePairs: seq<Match>,
    speakerPairs: seq<Match>,
    metadataFields: map<string, string>,
    events: seq<Event>)

  datatype Kind =
    | SameHash | SameEmail | SamePhone | SameQr | SameCamera | SameDevice | SameLocation
    | SameDocument | SharedIdentifier | SameLogo | SharedMetadata | SameSignature
    | SameAudioSpeaker | SimilarFilename | TemporalOverlap

  /** The enumeration value stored and sorted by. */
  function KindValue(k: Kind): string {
    match k
    case SameHash => "same_hash"
    case SameEmail => "same_email"
    case SamePhone => "same_phone"
    case SameQr => "same_qr"
    case SameCamera => "same_camera"
    case SameDevice => "same_device"
    case SameLocation => "same_location"
    case SameDocument => "same_document"
    case SharedIdentifier => "shared_identifier"
    case SameLogo => "same_logo"
    case SharedMetadata => "shared_metadata"
    case SameSignature => "same_signature"
    case SameAudioSpeaker => "same_audio_speaker"
    case SimilarFilename => "similar_filename"
    case TemporalOverlap => "temporal_overlap"
  }

  /** The fixed score of a kind, in hundredths. */
  function ScoreFor(k: Kind): nat {
    match k
    case SameHash => 100
    case SameEmail => 98
    case SamePhone => 97
    case SameQr => 95
    case SameSignature => 92
    case SameLocation => 90
    case SameCamera => 90
    case SameDevice => 90
    case SameAudioSpeaker => 88
    case SameLogo => 86
    case SameDocument => 85
    case SharedIdentifier => 82
    case SharedMetadata => 80
    case TemporalOverlap => 70
    case SimilarFilename => 45
  }

  /** The fixed confidence of a kind, in hundredths. */
  function ConfidenceFor(k: Kind): nat {
    match k
    case SameHash => 100
    case SameEmail | SamePhone | SameQr | SameSignature | SameLocation => 95
    case TemporalOverlap | SimilarFilename => 60
    case _ => 80
  }

  datatype Correlation = Correlation(
    key: string,
    left: Uuid,
    right: Uuid,
    kind: Kind,
    score: nat,
    confidence: nat,
    entities: seq<string>,
    findings: seq<string>)

  function CanonicalPair(left: Uuid, right: Uuid): (Uuid, Uuid) {
    if Le(left, right) then (left, right) else (right, left)
  }

  function CorrelationKey(left: Uuid, right: Uuid, kind: Kind): string {
    var (a, b) := CanonicalPair(left, right);
    KindValue(kind) + ":" + a + ":" + b
  }

  function MakeCorrelation(left: Uuid, right: Uuid, kind: Kind, entities: seq<string>, findings: seq<string>): Correlation {
    var (a, b) := CanonicalPair(left, right);
    Correlation(CorrelationKey(a, b, kind), a, b, kind, ScoreFor(kind), ConfidenceFor(kind), entities, findings)
  }

  predicate SamePair(a: Uuid, b: Uuid, c: Uuid, d: Uuid) {
    (a == c && b == d) || (a == d && b == c)
  }

  // ----- which values a kind compares ----------------------------------------------------

  /** The ten kinds matched through the inverted index of values. */
  predicate IsExact(k: Kind) {
    !(k.SharedMetadata? || k.SameSignature? || k.SameAudioSpeaker? || k.SimilarFilename? || k.TemporalOverlap?)
  }

  /** Kinds read off stored matches rather than computed from two signals. */
  predicate IsLink(k: Kind) {
    k.SameSignature? || k.SameAudioSpeaker?
  }

  function Values(k: Kind, s: Signals): set<string>
    requires IsExact(k)
  {
    match k
    case SameHash => {s.hash}
    case SameEmail => s.emails
    case SamePhone => s.phones
    case SameQr => s.qrPayloads
    case SameCamera => s.cameraModels
    case SameDevice => s.deviceModels
    case SameLocation => s.locations
    case SameDocument => s.documentIds
    case SharedIdentifier => s.identifiers
    case SameLogo => s.logoLabels
  }

  /** The non-empty values two items have in common. */
  function Shared(k: Kind, l: Signals, r: Signals): set<string>
    requires IsExact(k)
  {
    Values(k, l) * Values(k, r) - {""}
  }

  function Take3(xs: seq<string>): seq<string> { if |xs| <= 3 then xs else xs[..3] }

  function ExactCorrelation(k: Kind, l: Signals, r: Signals, value: string): Correlation
    requires IsExact(k)
  {
    MakeCorrelation(l.id, r.id, k, [value],
      if k == SameLogo then l.logoFindingIds + r.logoFindingIds
      else Take3(l.extractionIds) + Take3(r.extractionIds))
  }

  /** Metadata fields on which two items agree, without the ones that have a kind of their own. */
  function SharedFields(l: Signals, r: Signals): set<string> {
    set f | f in l.metadataFields && f in r.metadataFields && l.metadataFields[f] == r.metadataFields[f]
            && f != "camera_model" && f != "device_model" && f != "location"
  }

  function MetadataCorrelation(l: Signals, r: Signals, field: string): Correlation
    requires field in l.metadataFields
  {
    MakeCorrelation(l.id, r.id, SharedMetadata, [field + ":" + l.metadataFields[field]], [])
  }

  // ----- file names ----------------------------------------------------------------------

  function Cleaned(name: string): string {
    seq(|name|, i requires 0 <= i < |name| =>
      if name[i] in {'_', '-', '.'} then ' ' else Lower(name[i]))
  }

  function FilenameTokens(name: string): set<string> {
    set w | w in Words(Cleaned(name)) && |w| > 1
  }

  /** Jaccard similarity of the tokens, in ten-thousandths. */
  function FilenameSimilarity(left: string, right: string): int {
    var l, r := FilenameTokens(left), FilenameTokens(right);
    if l == {} || r == {} then 0
    else
      assert l + r != {};
      TenThousandths(|l * r|, |l + r|)
  }

  const THRESHOLD := 5000

  predicate SimilarNames(l: Signals, r: Signals) {
    FilenameSimilarity(l.filename, r.filename) >= THRESHOLD && l.filename != r.filename
  }

  function FilenameCorrelation(l: Signals, r: Signals): Correlation {
    MakeCorrelation(l.id, r.id, SimilarFilename, [l.filename, r.filename], [])
  }

  // ----- timeline events -----------------------------------------------------------------

  /** Microseconds within which two events count as overlapping. */
  function Window(l: Event, r: Event): int {
    1000 * Max(Max(l.uncertainty, r.uncertainty), 60_000)
  }

  function Gap(l: Event, r: Event): nat
    requires l.at.Some? && r.at.Some?
  {
    if l.at.value >= r.at.value then l.at.value - r.at.value else r.at.value - l.at.value
  }

  predicate Overlaps(l: Event, r: Event) {
    l.at.Some? && r.at.Some? && Gap(l, r) <= Window(l, r)
  }

  /** The gap in whole milliseconds. */
  function GapMs(l: Event, r: Event): nat
    requires l.at.Some? && r.at.Some?
  {
    Gap(l, r) / 1000
  }

  datatype Overlap = Overlap(left: string, right: string, gapMs: nat)

  /** The first pair (in the order of the two lists) among those with the least gap. */
  ghost predicate IsBestOverlap(ls: seq<Event>, rs: seq<Event>, i: nat, j: nat) {
    && i < |ls| && j < |rs| && Overlaps(ls[i], rs[j])
    && forall x, y :: 0 <= x < |ls| && 0 <= y < |rs| && Overlaps(ls[x], rs[y]) ==>
         && GapMs(ls[i], rs[j]) <= GapMs(ls[x], rs[y])
         && (x < i || (x == i && y < j) ==> GapMs(ls[i], rs[j]) < GapMs(ls[x], rs[y]))
  }

  /** `o` names the first pair of events with the least gap. */
  ghost predicate IsOverlap(ls: seq<Event>, rs: seq<Event>, o: Overlap) {
    exists i: nat, j: nat :: IsBestOverlap(ls, rs, i, j) && o == Overlap(ls[i].id, rs[j].id, GapMs(ls[i], rs[j]))
  }

  function TemporalCorrelation(l: Signals, r: Signals, o: Overlap): Correlation {
    MakeCorrelation(l.id, r.id, TemporalOverlap, [o.left, o.right], [o.left, o.right])
  }

  // ----- stored links --------------------------------------------------------------------

  datatype Link = Link(left: Uuid, right: Uuid, support: string)

  function Matches(k: Kind, s: Signals): seq<Match>
    requires IsLink(k)
  {
    if k == SameSignature then s.signaturePairs else s.speakerPairs
  }

  function LinksOf(id: Uuid, matches: seq<Match>): seq<Link> {
    seq(|matches|, i requires 0 <= i < |matches| => Link(id, matches[i].other, matches[i].support))
  }

  /** All stored links of one kind, in the order in which the engine meets them. */
  function Links(k: Kind, signals: seq<Signals>): seq<Link>
    requires IsLink(k)
  {
    if signals == [] then []
    else
      var last := signals[|signals| - 1];
      Links(k, signals[..|signals| - 1]) + LinksOf(last.id, Matches(k, last))
  }

  function LinkCorrelation(k: Kind, link: Link): Correlation
    requires IsLink(k)
  {
    MakeCorrelation(link.left, link.right, k, [link.support], [link.support])
  }

  // ----- the reference definition --------------------------------------------------------

  ghost predicate DistinctIds(signals: seq<Signals>) {
    forall i, j :: 0 <= i < j < |signals| ==> signals[i].id != signals[j].id
  }

  predicate Before(l: Signals, r: Signals) {
    l.id != r.id && Le(l.id, r.id)
  }

  predicate IsLeast(x: string, xs: set<string>) {
    x in xs && forall y :: y in xs ==> Le(x, y)
  }

  /** The correlation a pairwise kind gives two items, seen without any index or sweep. */
  ghost predicate PairCorrelation(k: Kind, l: Signals, r: Signals, c: Correlation) {
    if IsExact(k) then exists v :: IsLeast(v, Shared(k, l, r)) && c == ExactCorrelation(k, l, r, v)
    else if k == SharedMetadata then
      exists f :: IsLeast(f, SharedFields(l, r)) && c == MetadataCorrelation(l, r, f)
    else if k == SimilarFilename then SimilarNames(l, r) && c == FilenameCorrelation(l, r)
    else if k == TemporalOverlap then
      exists o :: IsOverlap(l.events, r.events, o) && c == TemporalCorrelation(l, r, o)
    else false
  }

  /** The correlation of a stored link that no earlier link of the same pair precedes. */
  ghost predicate FirstLink(k: Kind, links: seq<Link>, i: int, c: Correlation)
    requires IsLink(k)
  {
    && 0 <= i < |links|
    && c == LinkCorrelation(k, links[i])
    && forall j :: 0 <= j < i ==> !SamePair(links[j].left, links[j].right, links[i].left, links[i].right)
  }

  /** What the engine must report of one kind. */
  ghost predicate Wanted(signals: seq<Signals>, k: Kind, c: Correlation) {
    if IsLink(k) then exists i :: FirstLink(k, Links(k, signals), i, c)
    else exists l, r :: l in signals && r in signals && Before(l, r) && PairCorrelation(k, l, r, c)
  }

  lemma {:induction false} LeastExists(xs: set<string>)
    requires xs != {}
    ensures exists x :: IsLeast(x, xs)
    decreases |xs|
  {
    var x :| x in xs;
    LeReflexive(x);
    if xs == {x} {
      assert IsLeast(x, xs);
    } else {
      LeastExists(xs - {x});
      var y :| IsLeast(y, xs - {x});
      LeTotal(x, y);
      if Le(x, y) {
        forall z | z in xs ensures Le(x, z) {
          if z != x {
            LeTransitive(x, y, z);
          }
        }
        assert IsLeast(x, xs);
      } else {
        assert IsLeast(y, xs);
      }
    }
  }

  lemma LeastUnique(x: string, y: string, xs: set<string>)
    requires IsLeast(x, xs) && IsLeast(y, xs)
    ensures x == y
  {
    LeAntisymmetric(x, y);
  }

  /** The first of some strings in sorted order. */
  function Least(xs: set<string>): (x: string)
    requires xs != {}
    ensures IsLeast(x, xs)
  {
    LeastExists(xs);
    LeastUniqueAll(xs);
    var x :| x in xs && IsLeast(x, xs);
    x
  }

  lemma LeastUniqueAll(xs: set<string>)
    ensures forall x, y :: IsLeast(x, xs) && IsLeast(y, xs) ==> x == y
  {
    forall x, y | IsLeast(x, xs) && IsLeast(y, xs) ensures x == y {
      LeastUnique(x, y, xs);
    }
  }
}
