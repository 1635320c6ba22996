/** What the correlations in the output of the engine say about two items, in the terms of their
    signals alone: fields, characters, times and counts. */
module CorrelationMeaning {
  import opened CorrelationEngine
  import opened CorrelationMatchers
  import opened CorrelationModel
  import opened CorrelationTheorems
  import opened CorrelationTimes
  import opened Text

  // ----- times ---------------------------------------------------------------------------

  lemma OverlapsAreClose(ls: seq<Event>, rs: seq<Event>)
    ensures (exists x, y :: x in ls && y in rs && Overlaps(x, y)) <==> SomeClose(ls, rs)
  {
    forall x, y ensures Overlaps(x, y) <==> Close(x, y) {
      OverlapsMeansClose(x, y);
    }
  }

  /** The output names a temporal overlap of two items exactly when some event of one is close to
      some event of the other. */
  lemma ReportedWhenClose(signals: seq<Signals>, out: seq<Correlation>, a: Signals, b: Signals)
    requires DistinctIds(signals) && IsOutput(signals, out)
    requires a in signals && b in signals && a.id != b.id
    ensures (exists c :: Reports(out, TemporalOverlap, a.id, b.id, c)) <==> SomeClose(a.events, b.events)
  {
    TemporalCharacterized(signals, out, a, b);
    OverlapsAreClose(a.events, b.events);
  }

  /** And it names the nearest of these events, those of the item with the smaller identifier first. */
  lemma NamesNearest(signals: seq<Signals>, out: seq<Correlation>, a: Signals, b: Signals, c: Correlation)
    requires DistinctIds(signals) && IsOutput(signals, out)
    requires a in signals && b in signals && Before(a, b) && Reports(out, TemporalOverlap, a.id, b.id, c)
    ensures exists i, j, ms :: Nearest(a.events, b.events, i, j, ms) && c.entities == [a.events[i].id, b.events[j].id]
  {
    ReportsPair(signals, out, TemporalOverlap, a, b, c);
    var o :| IsOverlap(a.events, b.events, o) && c == TemporalCorrelation(a, b, o);
    OverlapIsNearest(a.events, b.events, o);
  }

  // ----- file names ----------------------------------------------------------------------

  predicate Separates(c: char) { IsSpace(c) || c == '_' || c == '-' || c == '.' }

  /** From `i` to `j` the name has no separator, and it cannot be extended. */
  ghost predicate IsToken(name: string, i: int, j: int) {
    && 0 <= i <= j <= |name| && j - i >= 2
    && (forall k :: i <= k < j ==> !Separates(name[k]))
    && (i == 0 || Separates(name[i - 1])) && (j == |name| || Separates(name[j]))
  }

  lemma CleanedSpaces(name: string)
    ensures |Cleaned(name)| == |name| && forall k :: 0 <= k < |name| ==> (IsSpace(Cleaned(name)[k]) <==> Separates(name[k]))
    ensures forall k :: 0 <= k < |name| && !Separates(name[k]) ==> Cleaned(name)[k] == Lower(name[k])
  {}

  lemma SameStretch(name: string, i: nat, j: nat)
    requires i <= j <= |name| && forall k :: i <= k < j ==> !Separates(name[k])
    ensures Cleaned(name)[i..j] == LowerAll(name[i..j])
  {
    CleanedSpaces(name);
  }

  /** The tokens of a name, read off its own characters. */
  lemma TokensAre(name: string, w: string)
    ensures w in FilenameTokens(name) <==> exists i, j :: IsToken(name, i, j) && w == LowerAll(name[i..j])
  {
    TokensCharacterized(name, w);
    CleanedSpaces(name);
    if w in FilenameTokens(name) {
      var i: nat, j: nat :| MaximalRun(Cleaned(name), i, j) && Cleaned(name)[i..j] == w;
      assert forall k :: i <= k < j ==> !IsSpace(Cleaned(name)[k]);
      SameStretch(name, i, j);
      assert IsToken(name, i, j);
    }
    if i, j :| IsToken(name, i, j) && w == LowerAll(name[i..j]) {
      SameStretch(name, i, j);
      assert MaximalRun(Cleaned(name), i, j);
    }
  }

  lemma OnlyOne(signals: seq<Signals>, out: seq<Correlation>, k: Kind, a: Signals, b: Signals, c: Correlation)
    requires DistinctIds(signals) && IsOutput(signals, out) && !IsLink(k)
    requires a in signals && b in signals && a.id != b.id && Between(k, a, b, c)
    ensures exists d :: Reports(out, k, a.id, b.id, d)
  {
    ReportsPair(signals, out, k, a, b, c);
  }

  /** The output names two items with similar file names exactly when the names differ, have tokens,
      and share at least half of all tokens; for names of at most 255 characters. */
  lemma ReportedWhenAlike(signals: seq<Signals>, out: seq<Correlation>, a: Signals, b: Signals)
    requires DistinctIds(signals) && IsOutput(signals, out)
    requires a in signals && b in signals && a.id != b.id && |a.filename| <= 255 && |b.filename| <= 255
    ensures (exists c :: Reports(out, SimilarFilename, a.id, b.id, c)) <==>
              var l, r := FilenameTokens(a.filename), FilenameTokens(b.filename);
              a.filename != b.filename && l != {} && r != {} && 2 * |l * r| >= |l + r|
  {
    StoredNamesDecide(a.filename, b.filename);
    SimilarityDecides(a.filename, b.filename);
    if SimilarNames(a, b) {
      OnlyOne(signals, out, SimilarFilename, a, b, if Before(a, b) then FilenameCorrelation(a, b) else FilenameCorrelation(b, a));
    }
    if c :| Reports(out, SimilarFilename, a.id, b.id, c) {
      ReportsPair(signals, out, SimilarFilename, a, b, c);
    }
  }

  // ----- metadata ------------------------------------------------------------------------

  /** Both items have the field, with the same value, and it is none of the three that have a kind
      of their own. */
  predicate Agree(a: Signals, b: Signals, field: string) {
    && field in a.metadataFields && field in b.metadataFields && a.metadataFields[field] == b.metadataFields[field]
    && field != "camera_model" && field != "device_model" && field != "location"
  }

  /** The output names two items with shared metadata exactly when they agree on a field, and then
      gives the smallest such field with its value. */
  lemma ReportedWhenAgreeing(signals: seq<Signals>, out: seq<Correlation>, a: Signals, b: Signals)
    requires DistinctIds(signals) && IsOutput(signals, out)
    requires a in signals && b in signals && a.id != b.id
    ensures (exists c :: Reports(out, SharedMetadata, a.id, b.id, c)) <==> exists field :: Agree(a, b, field)
    ensures forall c :: Reports(out, SharedMetadata, a.id, b.id, c) ==>
              exists field :: Agree(a, b, field) && c.entities == [field + ":" + a.metadataFields[field]]
                              && forall other :: Agree(a, b, other) ==> Le(field, other)
  {
    var l, r := if Before(a, b) then a else b, if Before(a, b) then b else a;
    forall field ensures field in SharedFields(l, r) <==> Agree(a, b, field) {}
    forall c | Reports(out, SharedMetadata, a.id, b.id, c)
      ensures exists field :: Agree(a, b, field) && c.entities == [field + ":" + a.metadataFields[field]]
                              && forall other :: Agree(a, b, other) ==> Le(field, other)
    {
      ReportsPair(signals, out, SharedMetadata, a, b, c);
      var field :| IsLeast(field, SharedFields(l, r)) && c == MetadataCorrelation(l, r, field);
      assert Agree(a, b, field);
    }
    if field :| Agree(a, b, field) {
      assert field in SharedFields(l, r);
      LeastExists(SharedFields(l, r));
      var least :| IsLeast(least, SharedFields(l, r));
      OnlyOne(signals, out, SharedMetadata, a, b, MetadataCorrelation(l, r, least));
    }
  }

  // ----- exact values --------------------------------------------------------------------

  ghost predicate Named(out: seq<Correlation>, k: Kind, a: Signals, b: Signals) {
    exists c :: Reports(out, k, a.id, b.id, c)
  }

  ghost predicate ShareSome(xs: set<string>, ys: set<string>) { exists v :: v != "" && v in xs && v in ys }

  lemma NamedWhenShared(signals: seq<Signals>, out: seq<Correlation>, k: Kind, a: Signals, b: Signals)
    requires DistinctIds(signals) && IsOutput(signals, out) && IsExact(k)
    requires a in signals && b in signals && a.id != b.id
    ensures Named(out, k, a, b) <==> ShareSome(Values(k, a), Values(k, b))
  {
    ExactKindCharacterized(signals, out, k, a, b);
  }

  /** Which field each exact kind looks at. */
  lemma NamedByField(signals: seq<Signals>, out: seq<Correlation>, a: Signals, b: Signals)
    requires DistinctIds(signals) && IsOutput(signals, out)
    requires a in signals && b in signals && a.id != b.id
    ensures Named(out, SameHash, a, b) <==> a.hash == b.hash != ""
    ensures Named(out, SameEmail, a, b) <==> ShareSome(a.emails, b.emails)
    ensures Named(out, SamePhone, a, b) <==> ShareSome(a.phones, b.phones)
    ensures Named(out, SameQr, a, b) <==> ShareSome(a.qrPayloads, b.qrPayloads)
    ensures Named(out, SameCamera, a, b) <==> ShareSome(a.cameraModels, b.cameraModels)
    ensures Named(out, SameDevice, a, b) <==> ShareSome(a.deviceModels, b.deviceModels)
    ensures Named(out, SameLocation, a, b) <==> ShareSome(a.locations, b.locations)
    ensures Named(out, SameDocument, a, b) <==> ShareSome(a.documentIds, b.documentIds)
    ensures Named(out, SharedIdentifier, a, b) <==> ShareSome(a.identifiers, b.identifiers)
    ensures Named(out, SameLogo, a, b) <==> ShareSome(a.logoLabels, b.logoLabels)
  {
    NamedWhenShared(signals, out, SameHash, a, b);
    NamedWhenShared(signals, out, SameEmail, a, b);
    NamedWhenShared(signals, out, SamePhone, a, b);
    NamedWhenShared(signals, out, SameQr, a, b);
    NamedWhenShared(signals, out, SameCamera, a, b);
    NamedWhenShared(signals, out, SameDevice, a, b);
    NamedWhenShared(signals, out, SameLocation, a, b);
    NamedWhenShared(signals, out, SameDocument, a, b);
    NamedWhenShared(signals, out, SharedIdentifier, a, b);
    NamedWhenShared(signals, out, SameLogo, a, b);
    if a.hash == b.hash != "" {
      assert a.hash in {a.hash} && a.hash in {b.hash};
    }
  }

  function FirstThree(xs: seq<string>): seq<string> { xs[..if |xs| < 3 then |xs| else 3] }

  /** The findings of an exact correlation: those of the item with the smaller identifier first. */
  lemma FindingsNamed(signals: seq<Signals>, out: seq<Correlation>, k: Kind, a: Signals, b: Signals, c: Correlation)
    requires DistinctIds(signals) && IsOutput(signals, out) && IsExact(k)
    requires a in signals && b in signals && Before(a, b) && Reports(out, k, a.id, b.id, c)
    ensures c.left == a.id && c.right == b.id
    ensures k == SameLogo ==> c.findings == a.logoFindingIds + b.logoFindingIds
    ensures k != SameLogo ==> c.findings == FirstThree(a.extractionIds) + FirstThree(b.extractionIds)
  {
    ReportsPair(signals, out, k, a, b, c);
    PairCorrelationShape(k, a, b, c);
    var v := LeastShared(k, a, b, c);
    assert a.extractionIds[..|a.extractionIds|] == a.extractionIds && b.extractionIds[..|b.extractionIds|] == b.extractionIds;
  }

  // ----- the order of kinds --------------------------------------------------------------

  /** The kinds from the strongest to the weakest. */
  const BY_STRENGTH: seq<Kind> :=
    [SameHash, SameEmail, SamePhone, SameQr, SameSignature, SameCamera, SameDevice, SameLocation, SameAudioSpeaker,
     SameLogo, SameDocument, SharedIdentifier, SharedMetadata, TemporalOverlap, SimilarFilename]

  function Place(k: Kind): (i: int)
    ensures 0 <= i < |BY_STRENGTH| && BY_STRENGTH[i] == k
  {
    match k
    case SameHash => 0
    case SameEmail => 1
    case SamePhone => 2
    case SameQr => 3
    case SameSignature => 4
    case SameCamera => 5
    case SameDevice => 6
    case SameLocation => 7
    case SameAudioSpeaker => 8
    case SameLogo => 9
    case SameDocument => 10
    case SharedIdentifier => 11
    case SharedMetadata => 12
    case TemporalOverlap => 13
    case SimilarFilename => 14
  }

  lemma StrongerFirst(k: Kind, m: Kind)
    requires Place(k) < Place(m) && !(5 <= Place(k) && Place(m) <= 7)
    ensures ScoreFor(k) > ScoreFor(m)
  {}

  lemma PlaceNames()
    ensures KindValue(SameCamera) == "same_" + "camera" && KindValue(SameDevice) == "same_" + "device"
    ensures KindValue(SameLocation) == "same_" + "location"
  {}

  lemma LocationLast()
    ensures Le(KindValue(SameCamera), KindValue(SameDevice)) && Le(KindValue(SameDevice), KindValue(SameLocation))
    ensures Le(KindValue(SameCamera), KindValue(SameLocation))
  {
    PlaceNames();
    StartsDiffer("same_", "camera", "device", "location");
  }

  lemma StartsDiffer(p: string, x: string, y: string, z: string)
    requires x != "" && y != "" && z != "" && x[0] < y[0] < z[0]
    ensures Le(p + x, p + y) && Le(p + y, p + z) && Le(p + x, p + z)
  {
    SharedStart(p, x, y);
    SharedStart(p, y, z);
    SharedStart(p, x, z);
  }

  lemma {:induction false} SharedStart(p: string, x: string, y: string)
    requires x != "" && y != "" && x[0] < y[0]
    ensures Le(p + x, p + y)
  {
    if p == "" {
      assert p + x == x && p + y == y;
    } else {
      SharedStart(p[1..], x, y);
      assert (p + x)[1..] == p[1..] + x && (p + y)[1..] == p[1..] + y;
    }
  }

  lemma SlotsInOrder(c: Slot, d: Slot)
    requires SlotLt(c, d)
    ensures Place(c.kind) <= Place(d.kind)
  {
    var k, m := c.kind, d.kind;
    if Place(m) < Place(k) {
      if 5 <= Place(m) && Place(k) <= 7 {
        LocationLast();
        LeAntisymmetric(KindValue(k), KindValue(m));
        KindValueInjective(k, m);
      } else {
        StrongerFirst(m, k);
      }
    }
  }

  /** In the output the stronger kinds come first. */
  lemma KindsInOrder(signals: seq<Signals>, out: seq<Correlation>, i: int, j: int)
    requires IsOutput(signals, out) && 0 <= i < j < |out|
    ensures Place(out[i].kind) <= Place(out[j].kind)
  {
    SlotsInOrder(SlotOf(out[i]), SlotOf(out[j]));
  }

  // ----- scores, confidences and stored links --------------------------------------------

  /** Scores and confidences in hundredths, in the order of strength. */
  const SCORES: seq<nat> := [100, 98, 97, 95, 92, 90, 90, 90, 88, 86, 85, 82, 80, 70, 45]
  const CONFIDENCES: seq<nat> := [100, 95, 95, 95, 95, 80, 80, 95, 80, 80, 80, 80, 80, 60, 60]

  lemma Made(l: Uuid, r: Uuid, k: Kind, entities: seq<string>, findings: seq<string>)
    ensures var c := MakeCorrelation(l, r, k, entities, findings);
            c.score == SCORES[Place(k)] && c.confidence == CONFIDENCES[Place(k)] && c.kind == k
            && c.entities == entities && c.findings == findings
  {}

  /** Every reported correlation carries the score and the confidence of its kind. */
  lemma ScoresNamed(signals: seq<Signals>, out: seq<Correlation>, c: Correlation)
    requires IsOutput(signals, out) && c in out
    ensures c.score == SCORES[Place(c.kind)] && c.confidence == CONFIDENCES[Place(c.kind)]
  {
    if IsLink(c.kind) {
      var i :| FirstLink(c.kind, Links(c.kind, signals), i, c);
      var link := Links(c.kind, signals)[i];
      Made(link.left, link.right, c.kind, [link.support], [link.support]);
    } else {
      var l, r :| l in signals && r in signals && Before(l, r) && PairCorrelation(c.kind, l, r, c);
      Made(l.id, r.id, c.kind, c.entities, c.findings);
      assert c == MakeCorrelation(l.id, r.id, c.kind, c.entities, c.findings);
    }
  }

  function StoredMatches(k: Kind, s: Signals): seq<Match>
    requires IsLink(k)
  {
    match k
    case SameSignature => s.signaturePairs
    case SameAudioSpeaker => s.speakerPairs
  }

  /** A signature or speaker correlation names the run of a match that is stored for the pair. */
  lemma LinkNamesRun(signals: seq<Signals>, out: seq<Correlation>, k: Kind, a: Uuid, b: Uuid, c: Correlation)
    requires IsOutput(signals, out) && IsLink(k) && Reports(out, k, a, b, c)
    ensures exists s, m :: s in signals && m in StoredMatches(k, s) && SamePair(s.id, m.other, a, b)
                           && c.entities == [m.support] && c.findings == [m.support]
  {
    var i :| FirstLink(k, Links(k, signals), i, c);
    var link := Links(k, signals)[i];
    MadeOfKind(link.left, link.right, k, [link.support], [link.support]);
    LinksAre(k, signals);
    assert link in Links(k, signals);
    var s :| s in signals && link in LinksOf(s.id, Matches(k, s));
    var j :| 0 <= j < |Matches(k, s)| && LinksOf(s.id, Matches(k, s))[j] == link;
    assert Matches(k, s)[j] in StoredMatches(k, s);
  }
}
