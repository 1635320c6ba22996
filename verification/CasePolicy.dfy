/** Coverage, risk, confidence and verdict of a case
    (backend/app/case_intelligence/coverage.py and policy.py). */
module CasePolicy {
  import opened Bags
  import opened CaseConflicts
  import opened CaseModel
  import opened Dedup
  import opened Numbers
  import opened Options
  import opened Rounding
  import opened Sorting
  import Groups = CorrelationGroups
  import Text

  // ----- coverage ------------------------------------------------------------------------

  datatype Coverage = Coverage(
    total: nat,
    analyzed: nat,
    notAnalyzed: nat,
    inconclusive: nat,
    insufficient: nat,
    unavailable: nat,
    failed: nat,
    supporting: nat,
    contradictory: nat,
    openConflicts: nat,
    modalities: seq<string>)

  function HasStatus(status: Status): Participation -> bool { (item: Participation) => item.status == status }

  method ComputeCoverage(items: seq<Participation>, openConflicts: nat) returns (c: Coverage)
    ensures c.total == |items| && c.openConflicts == openConflicts
    ensures c.analyzed == Count(items, HasStatus(Analyzed)) && c.notAnalyzed == Count(items, HasStatus(NotAnalyzed))
    ensures c.inconclusive == Count(items, HasStatus(Status.Inconclusive))
    ensures c.insufficient == Count(items, HasStatus(Status.InsufficientEvidence))
    ensures c.unavailable == Count(items, HasStatus(Status.Unavailable)) && c.failed == Count(items, HasStatus(Failed))
    ensures c.analyzed + c.notAnalyzed + c.inconclusive + c.insufficient + c.unavailable + c.failed == c.total
    ensures c.supporting == Count(items, IsSuspicious) && c.contradictory == Count(items, IsGenuine)
    ensures Ascending(c.modalities, Text.Le) && Distinct(c.modalities)
    ensures forall m :: m in c.modalities <==> exists item :: item in items && m in item.modalities
  {
    var found: set<string> := {};
    for i := 0 to |items|
      invariant forall m :: m in found <==> exists item :: item in items[..i] && m in item.modalities
    {
      assert items[..i + 1] == items[..i] + [items[i]];
      found := found + set m | m in items[i].modalities;
    }
    assert items[..|items|] == items;
    var modalities := Groups.SortStrings(found);
    StatusesPartition(items);
    c := Coverage(|items|, Count(items, HasStatus(Analyzed)), Count(items, HasStatus(NotAnalyzed)),
                  Count(items, HasStatus(Status.Inconclusive)), Count(items, HasStatus(Status.InsufficientEvidence)),
                  Count(items, HasStatus(Status.Unavailable)), Count(items, HasStatus(Failed)),
                  Count(items, IsSuspicious), Count(items, IsGenuine), openConflicts, modalities);
  }

  lemma {:induction false} StatusesPartition(items: seq<Participation>)
    ensures Count(items, HasStatus(Analyzed)) + Count(items, HasStatus(NotAnalyzed))
            + Count(items, HasStatus(Status.Inconclusive)) + Count(items, HasStatus(Status.InsufficientEvidence))
            + Count(items, HasStatus(Status.Unavailable)) + Count(items, HasStatus(Failed)) == |items|
  {
    if items != [] {
      StatusesPartition(items[1..]);
    }
  }

  // ----- risk ----------------------------------------------------------------------------

  predicate IsScored(item: Participation) { IsSuspicious(item) && item.risk.Some? }

  /** A missing confidence counts as one half, and so does a confidence of exactly zero. */
  function Trust(confidence: Option<real>): real {
    if confidence.None? || confidence.value == 0.0 then 0.5 else confidence.value
  }

  function Weight(item: Participation): real {
    (if item.risk.Some? then item.risk.value else 0.0) * Trust(item.confidence)
  }

  function Multiplier(scored: nat): real
    requires scored > 0
  {
    1.0 + MinReal(0.2 * (scored - 1) as real, 0.4)
  }

  function Penalty(conflicts: nat): real { MinReal(0.15 * conflicts as real, 0.3) }

  /** The clamped score before rounding. */
  function Clamped(base: real, scored: nat, conflicts: nat): real
    requires scored > 0
  {
    MinReal(MaxReal(base * Multiplier(scored) - Penalty(conflicts) * 100.0, 0.0), 100.0)
  }

  /** The rounded score of `n` scored items with a total weight. */
  function RoundedRisk(total: real, n: nat, conflicts: nat): Option<int> {
    if n == 0 then None else Some(Hundredths(Clamped(total / n as real, n, conflicts)))
  }

  /** The case risk in hundredths. */
  function CaseRisk(items: seq<Participation>, conflicts: nat): Option<int> {
    WeightedRisk(items, Weight, conflicts)
  }

  function WeightedRisk(items: seq<Participation>, weight: Participation -> real, conflicts: nat): Option<int> {
    RoundedRisk(Total(Keep(items, IsScored), weight), Count(items, IsScored), conflicts)
  }

  lemma ClampedMonotone(base: real, scored: nat, few: nat, many: nat)
    requires scored > 0 && few <= many
    ensures Clamped(base, scored, many) <= Clamped(base, scored, few)
  {}

  /** No score exactly when no suspicious item carries one; otherwise between 0 and 100; and all
      that matters about the conflicts is whether there are none, one or more. */
  lemma RiskShape(items: seq<Participation>, conflicts: nat)
    ensures CaseRisk(items, conflicts).None? <==> forall item :: item in items ==> !IsScored(item)
    ensures CaseRisk(items, conflicts).Some? ==> 0 <= CaseRisk(items, conflicts).value <= 10000
    ensures CaseRisk(items, conflicts) == CaseRisk(items, if conflicts <= 2 then conflicts else 2)
  {
    CountPositive(items, IsScored);
    if Count(items, IsScored) > 0 {
      RoundedRiskShape(Total(Keep(items, IsScored), Weight), Count(items, IsScored), conflicts);
    }
  }

  lemma RoundedRiskShape(total: real, n: nat, conflicts: nat)
    requires n > 0
    ensures 0 <= RoundedRisk(total, n, conflicts).value <= 10000
    ensures RoundedRisk(total, n, conflicts) == RoundedRisk(total, n, if conflicts <= 2 then conflicts else 2)
  {
    var x := Clamped(total / n as real, n, conflicts);
    assert Penalty(conflicts) == Penalty(if conflicts <= 2 then conflicts else 2);
    assert x == Clamped(total / n as real, n, if conflicts <= 2 then conflicts else 2);
    Monotone(0.0, 100.0 * x);
    Monotone(100.0 * x, 10000.0);
  }

  lemma RoundedRiskFalls(total: real, n: nat, few: nat, many: nat)
    requires n > 0 && few <= many
    ensures RoundedRisk(total, n, many).value <= RoundedRisk(total, n, few).value
  {
    var base := total / n as real;
    ClampedMonotone(base, n, few, many);
    Monotone(100.0 * Clamped(base, n, many), 100.0 * Clamped(base, n, few));
  }

  /** Evidence that agrees on the scored items, in whatever order, and has at least as many
      conflicts, has no higher a risk. */
  lemma RiskFallsWithConflicts(items: seq<Participation>, more: seq<Participation>, few: nat, many: nat)
    requires multiset(Keep(items, IsScored)) == multiset(Keep(more, IsScored)) && few <= many
    ensures CaseRisk(items, few).None? <==> CaseRisk(more, many).None?
    ensures CaseRisk(items, few).Some? ==> CaseRisk(more, many).value <= CaseRisk(items, few).value
  {
    var xs, ys := Keep(items, IsScored), Keep(more, IsScored);
    TotalPermuted(xs, ys, Weight);
    PermutedMembers(xs, ys);
    if xs != [] {
      RoundedRiskFalls(Total(xs, Weight), |xs|, few, many);
    }
  }

  /** Adding, anywhere in the list, an item that is neither suspicious nor potential fraud never
      raises the risk, although it may well change the conflicts. */
  lemma InnocentNeverRaisesRisk(before: seq<Participation>, item: Participation, after: seq<Participation>,
                                custody: seq<CustodyEvent>)
    requires !IsSuspicious(item)
    ensures var without, with := before + after, before + [item] + after;
            var r, s := CaseRisk(without, ConflictCount(without, custody)), CaseRisk(with, ConflictCount(with, custody));
            (r.None? <==> s.None?) && (r.Some? ==> s.value <= r.value)
  {
    var without, with := before + after, before + [item] + after;
    ConflictsGrow(without, with, custody);
    KeepSplit(before, after, IsScored);
    KeepSplit(before + [item], after, IsScored);
    KeepSplit(before, [item], IsScored);
    assert [item][1..] == [] && Keep([item], IsScored) == [];
    assert Keep(before, IsScored) + [] == Keep(before, IsScored);
    RiskFallsWithConflicts(without, with, ConflictCount(without, custody), ConflictCount(with, custody));
  }

  /** The order of the evidence does not matter. */
  lemma RiskOrderIrrelevant(items: seq<Participation>, others: seq<Participation>, custody: seq<CustodyEvent>)
    requires multiset(items) == multiset(others)
    ensures ConflictCount(items, custody) == ConflictCount(others, custody)
    ensures CaseRisk(items, ConflictCount(items, custody)) == CaseRisk(others, ConflictCount(others, custody))
  {
    PermutedMembers(items, others);
    ConflictsGrow(items, others, custody);
    ConflictsGrow(others, items, custody);
    KeepPermuted(items, others, IsScored);
    var n := ConflictCount(items, custody);
    RiskFallsWithConflicts(items, others, n, n);
    RiskFallsWithConflicts(others, items, n, n);
  }

  /** A further scored item at least as heavy as the average of the others never lowers the risk,
      as long as it brings no further conflict: for any weighing that is not negative, and so for
      the policy's. */
  lemma HeavySuspectNeverLowersRisk(items: seq<Participation>, item: Participation, weight: Participation -> real, conflicts: nat)
    requires forall x :: x in items ==> weight(x) >= 0.0
    requires IsScored(item) && Count(items, IsScored) > 0
    requires weight(item) * Count(items, IsScored) as real >= Total(Keep(items, IsScored), weight)
    ensures NotLower(WeightedRisk(items, weight, conflicts), WeightedRisk(items + [item], weight, conflicts))
    ensures weight == Weight ==> NotLower(CaseRisk(items, conflicts), CaseRisk(items + [item], conflicts))
  {
    ScoredNonNegative(items, weight);
    ScoringGrows(conflicts);
    HeavierScored(items, item, weight, Scoring(conflicts));
  }

  function Scoring(conflicts: nat): (real, nat) -> Option<int> { (total: real, n: nat) => RoundedRisk(total, n, conflicts) }

  /** A score that does not fall when a value joins that is at least the mean. */
  ghost predicate Grows(score: (real, nat) -> Option<int>) {
    forall total: real, n: nat, w: real :: Heavier(total, n, w) ==> NotLower(score(total, n), score(total + w, n + 1))
  }

  lemma ScoringGrows(conflicts: nat)
    ensures Grows(Scoring(conflicts))
  {
    var score := Scoring(conflicts);
    forall total: real, n: nat, w: real | Heavier(total, n, w) ensures NotLower(score(total, n), score(total + w, n + 1)) {
      HeavierMean(total, n, w, conflicts);
    }
  }

  /** `w` is at least the mean of `n` values with a total. */
  predicate Heavier(total: real, n: nat, w: real) { n > 0 && total >= 0.0 && w * n as real >= total }

  predicate NotLower(r: Option<int>, s: Option<int>) { r.Some? && s.Some? && s.value >= r.value }

  lemma HeavierScored(items: seq<Participation>, item: Participation, f: Participation -> real, score: (real, nat) -> Option<int>)
    requires IsScored(item) && Heavier(Total(Keep(items, IsScored), f), Count(items, IsScored), f(item))
    requires Grows(score)
    ensures NotLower(score(Total(Keep(items, IsScored), f), Count(items, IsScored)),
                     score(Total(Keep(items + [item], IsScored), f), Count(items + [item], IsScored)))
  {
    OneMoreScored(items, item, f);
  }

  lemma OneMoreScored(items: seq<Participation>, item: Participation, f: Participation -> real)
    requires IsScored(item)
    ensures Count(items + [item], IsScored) == Count(items, IsScored) + 1
    ensures Total(Keep(items + [item], IsScored), f) == Total(Keep(items, IsScored), f) + f(item)
  {
    KeepSplit(items, [item], IsScored);
    assert [item][1..] == [];
    assert Keep(items + [item], IsScored) == Keep(items, IsScored) + [item];
    TotalSplit(Keep(items, IsScored), [item], f);
    TotalOne(item, f);
  }

  lemma ScoredNonNegative(items: seq<Participation>, f: Participation -> real)
    requires forall x :: x in items ==> f(x) >= 0.0
    ensures Total(Keep(items, IsScored), f) >= 0.0
  {
    KeepMembers(items, IsScored);
    TotalNonNegative(Keep(items, IsScored), f);
  }

  lemma {:induction false} TotalNonNegative(xs: seq<Participation>, f: Participation -> real)
    requires forall x :: x in xs ==> f(x) >= 0.0
    ensures Total(xs, f) >= 0.0
  {
    if xs != [] {
      assert xs == [xs[0]] + xs[1..] && xs[0] in xs;
      TotalNonNegative(xs[1..], f);
      TotalSplit([xs[0]], xs[1..], f);
      TotalOne(xs[0], f);
    }
  }

  /** The mean does not fall when a value at least as large joins. */
  lemma MeanGrows(total: real, k: real, w: real, share: real)
    requires k > 0.0 && total >= 0.0 && share == w * k && share >= total
    ensures 0.0 <= total / k <= (total + w) / (k + 1.0)
  {
    var mean := total / k;
    MeanTimes(total, k);
    QuotientAtLeast(total, k, 0.0, 0.0);
    Scale(w, mean, k, share, total);
    Distributes(mean, k);
    QuotientAtLeast(total + w, k + 1.0, mean, total + mean);
  }

  lemma MeanTimes(total: real, k: real)
    requires k > 0.0
    ensures total / k * k == total
  {}

  lemma Distributes(x: real, k: real)
    ensures x * (k + 1.0) == x * k + x
  {}

  lemma MultiplierGrows(n: nat)
    requires n > 0
    ensures 0.0 <= Multiplier(n) <= Multiplier(n + 1)
  {}

  lemma ClampedGrows(low: real, high: real, n: nat, conflicts: nat)
    requires n > 0 && 0.0 <= low <= high
    ensures Clamped(low, n, conflicts) <= Clamped(high, n + 1, conflicts)
  {
    MultiplierGrows(n);
    ProductGrows(low, high, Multiplier(n), Multiplier(n + 1));
  }

  lemma HeavierMean(total: real, n: nat, w: real, conflicts: nat)
    requires Heavier(total, n, w)
    ensures NotLower(RoundedRisk(total, n, conflicts), RoundedRisk(total + w, n + 1, conflicts))
  {
    var low, high := total / n as real, (total + w) / (n + 1) as real;
    assert (n + 1) as real == n as real + 1.0;
    MeanGrows(total, n as real, w, w * n as real);
    ClampedGrows(low, high, n, conflicts);
    Monotone(100.0 * Clamped(low, n, conflicts), 100.0 * Clamped(high, n + 1, conflicts));
  }

  lemma ProductGrows(a: real, b: real, s: real, t: real)
    requires 0.0 <= a <= b && 0.0 <= s <= t
    ensures a * s <= b * t
  {
    assert (b - a) * s >= 0.0;
    assert b * (t - s) >= 0.0;
    assert b * t - a * s == (b - a) * s + b * (t - s);
  }

  /** When more confidence means at least as much weight: always, but for a confidence of exactly
      zero, which is taken for a missing one, against one that is less than one half. */
  lemma MoreConfidenceWeighsMore(item: Participation, risk: real, less: real, more: real)
    requires risk >= 0.0 && item.risk == Some(risk) && 0.0 <= less <= more
    ensures Weight(item.(confidence := Some(less))) <= Weight(item.(confidence := Some(more))) <==>
              risk == 0.0 || less != 0.0 || more == 0.0 || more >= 0.5
  {
    var x, y := Trust(Some(less)), Trust(Some(more));
    assert Weight(item.(confidence := Some(more))) - Weight(item.(confidence := Some(less))) == risk * (y - x);
    if risk > 0.0 && x > y {
      assert risk * (x - y) > 0.0;
    } else if x <= y {
      assert risk * (y - x) >= 0.0;
    }
  }

  // ----- confidence ----------------------------------------------------------------------

  predicate IsConfident(item: Participation) { item.confidence.Some? && item.status == Analyzed }

  /** The case confidence in ten-thousandths. */
  function CaseConfidence(items: seq<Participation>): Option<int> {
    RoundedMean(Total(Keep(items, IsConfident), ConfidenceOf), Count(items, IsConfident))
  }

  function RoundedMean(sum: real, n: nat): Option<int> {
    if n == 0 then None else Some(RoundHalfEven(10000.0 * (sum / n as real)))
  }

  /** The average lies between any bounds of the values it averages, also after rounding, and
      does not depend on their order. */
  lemma ConfidenceWithin(items: seq<Participation>, lo: int, hi: int)
    requires forall item :: item in items && IsConfident(item) ==> lo as real / 10000.0 <= ConfidenceOf(item) <= hi as real / 10000.0
    ensures CaseConfidence(items).None? <==> forall item :: item in items ==> !IsConfident(item)
    ensures CaseConfidence(items).Some? ==> lo <= CaseConfidence(items).value <= hi
  {
    CountPositive(items, IsConfident);
    KeepMembers(items, IsConfident);
    var xs := Keep(items, IsConfident);
    if xs != [] {
      MeanOfValues(xs, ConfidenceOf, lo, hi);
    }
  }

  lemma MeanOfValues(xs: seq<Participation>, f: Participation -> real, lo: int, hi: int)
    requires xs != [] && forall x :: x in xs ==> lo as real / 10000.0 <= f(x) <= hi as real / 10000.0
    ensures lo <= RoundedMean(Total(xs, f), |xs|).value <= hi
  {
    var l, h, n := lo as real / 10000.0, hi as real / 10000.0, |xs| as real;
    TotalWithin(xs, f, l, h, l * n, h * n);
    MeanWithin(Total(xs, f), |xs|, lo, hi, l * n, h * n);
  }

  lemma MeanWithin(total: real, n: nat, lo: int, hi: int, least: real, most: real)
    requires n > 0 && least == lo as real / 10000.0 * n as real && most == hi as real / 10000.0 * n as real
    requires least <= total <= most
    ensures lo <= RoundedMean(total, n).value <= hi
  {
    var m := n as real;
    QuotientAtLeast(total, m, lo as real / 10000.0, least);
    QuotientAtMost(total, m, hi as real / 10000.0, most);
    Monotone(lo as real, 10000.0 * (total / m));
    Monotone(10000.0 * (total / m), hi as real);
  }

  lemma QuotientAtMost(n: real, d: real, b: real, product: real)
    requires d > 0.0 && product == b * d && n <= product
    ensures n / d <= b
  {
    QuotientAtLeast(-n, d, -b, -product);
    assert -n / d == -(n / d);
  }

  // ----- verdict -------------------------------------------------------------------------

  predicate HasVerdict(item: Participation) { item.verdict.Some? }
  predicate IsFraud(item: Participation) { item.verdict == Some(PotentialFraud) }
  predicate IsMerelySuspicious(item: Participation) { item.verdict == Some(Suspicious) }
  predicate IsReachable(item: Participation) { item.status != Status.Unavailable }

  function CaseVerdict(items: seq<Participation>, conflicts: nat): Verdict {
    var analyzed := Keep(items, HasVerdict);
    if |items| == 0 then Verdict.InsufficientEvidence
    else if analyzed == [] then Verdict.InsufficientEvidence
    else if Keep(items, IsReachable) == [] then Verdict.Unavailable
    else
      var fraud := Count(analyzed, IsFraud);
      var suspicious := Count(analyzed, IsMerelySuspicious);
      var genuine := Count(analyzed, IsGenuine);
      if fraud >= 2 || (fraud >= 1 && suspicious >= 1) then PotentialFraud
      else if fraud >= 1 then PotentialFraud
      else if suspicious >= 2 then Suspicious
      else if suspicious >= 1 && genuine >= 1 then Verdict.Inconclusive
      else if suspicious >= 1 then Suspicious
      else if genuine >= 1 && conflicts == 0 then Genuine
      else Verdict.Inconclusive
  }

  ghost predicate Includes(items: seq<Participation>, p: Participation -> bool) {
    exists item :: item in items && p(item)
  }

  lemma {:induction false} KeepTwice(items: seq<Participation>, p: Participation -> bool)
    requires forall item :: p(item) ==> HasVerdict(item)
    ensures Keep(Keep(items, HasVerdict), p) == Keep(items, p)
  {
    if items != [] {
      var head := if HasVerdict(items[0]) then [items[0]] else [];
      KeepTwice(items[1..], p);
      KeepSplit(head, Keep(items[1..], HasVerdict), p);
      if HasVerdict(items[0]) {
        assert [items[0]][1..] == [];
      }
    }
  }

  /** The counts of the verdict policy, as properties of the items. */
  lemma VerdictCounts(items: seq<Participation>)
    ensures var analyzed := Keep(items, HasVerdict);
            && (analyzed != [] <==> Includes(items, HasVerdict))
            && Count(analyzed, IsFraud) == Count(items, IsFraud)
            && Count(analyzed, IsMerelySuspicious) == Count(items, IsMerelySuspicious)
            && Count(analyzed, IsGenuine) == Count(items, IsGenuine)
    ensures Keep(items, IsReachable) != [] <==> Includes(items, IsReachable)
    ensures Count(items, IsFraud) > 0 <==> Includes(items, IsFraud)
    ensures Count(items, IsMerelySuspicious) > 0 <==> Includes(items, IsMerelySuspicious)
    ensures Count(items, IsGenuine) > 0 <==> Includes(items, IsGenuine)
  {
    KeepTwice(items, IsFraud);
    KeepTwice(items, IsMerelySuspicious);
    KeepTwice(items, IsGenuine);
    CountPositive(items, HasVerdict);
    CountPositive(items, IsReachable);
    CountPositive(items, IsFraud);
    CountPositive(items, IsMerelySuspicious);
    CountPositive(items, IsGenuine);
  }

  /** Potential fraud is the verdict exactly when some item is potential fraud and not every item
      is unavailable; one analysed fraud item is therefore enough. */
  lemma FraudCharacterized(items: seq<Participation>, conflicts: nat)
    ensures CaseVerdict(items, conflicts) == PotentialFraud <==> Includes(items, IsFraud) && Includes(items, IsReachable)
    ensures (exists item :: item in items && IsFraud(item) && item.status == Analyzed) ==>
              CaseVerdict(items, conflicts) == PotentialFraud
  {
    VerdictCounts(items);
    forall item | item in items && IsFraud(item) && item.status == Analyzed ensures Includes(items, IsReachable) && Includes(items, IsFraud) {
      assert IsReachable(item);
    }
    if Includes(items, IsFraud) {
      var item :| item in items && IsFraud(item);
      assert HasVerdict(item);
    }
  }

  /** A case without fraud is suspicious exactly when two items are, or one is and none is genuine;
      a single suspicious item next to a genuine one decides nothing. */
  lemma SuspiciousCharacterized(items: seq<Participation>, conflicts: nat)
    ensures CaseVerdict(items, conflicts) == Suspicious <==>
            && Includes(items, IsReachable) && !Includes(items, IsFraud) && Includes(items, IsMerelySuspicious)
            && (!Includes(items, IsGenuine)
                || exists i, j :: 0 <= i < j < |items| && IsMerelySuspicious(items[i]) && IsMerelySuspicious(items[j]))
  {
    VerdictCounts(items);
    CountTwo(items, IsMerelySuspicious);
    if Includes(items, IsMerelySuspicious) {
      var item :| item in items && IsMerelySuspicious(item);
      assert HasVerdict(item);
    }
  }

  ghost predicate CloseConfidences(items: seq<Participation>) {
    forall x, y :: x in items && y in items && HasConfidence(x) && HasConfidence(y) ==>
      -0.4 < ConfidenceOf(x) - ConfidenceOf(y) < 0.4
  }

  ghost predicate CloseTimes(items: seq<Participation>) {
    forall x, y :: x in items && y in items && Completed(x) && Completed(y) ==>
      -86_400_000_000 <= CompletedAt(x) - CompletedAt(y) <= 86_400_000_000
  }

  ghost predicate CustodyAgrees(items: seq<Participation>, custody: seq<CustodyEvent>) {
    forall x :: x in items ==> CustodyHashes(custody, x.id) == {} || x.hash in CustodyHashes(custody, x.id)
  }

  /** A genuine verdict certifies the whole case, and nothing less gives one: some item is
      genuine, none is suspicious, not all are unavailable, every two confidences are less than
      0.4 and every two completions at most a day apart, and the custody records agree. */
  lemma GenuineCharacterized(items: seq<Participation>, custody: seq<CustodyEvent>)
    ensures CaseVerdict(items, ConflictCount(items, custody)) == Genuine <==>
            && Includes(items, IsGenuine) && !Includes(items, IsSuspicious) && Includes(items, IsReachable)
            && CloseConfidences(items) && CloseTimes(items) && CustodyAgrees(items, custody)
  {
    var n := ConflictCount(items, custody);
    GenuineByCounts(items, n);
    NoConflict(items, custody);
    forall item | item in items && !Includes(items, IsSuspicious) ensures !Contradicted(item) && !IsSuspicious(item) {}
  }

  lemma GenuineByCounts(items: seq<Participation>, conflicts: nat)
    ensures CaseVerdict(items, conflicts) == Genuine <==>
            Includes(items, IsGenuine) && !Includes(items, IsSuspicious) && Includes(items, IsReachable) && conflicts == 0
  {
    VerdictCounts(items);
    Suspects(items);
    if Includes(items, IsGenuine) {
      var item :| item in items && IsGenuine(item);
      assert HasVerdict(item);
    }
  }

  lemma Suspects(items: seq<Participation>)
    ensures Includes(items, IsSuspicious) <==> Includes(items, IsFraud) || Includes(items, IsMerelySuspicious)
  {
    if Includes(items, IsSuspicious) {
      var item :| item in items && IsSuspicious(item);
      assert IsFraud(item) || IsMerelySuspicious(item);
    }
    if Includes(items, IsFraud) {
      var item :| item in items && IsFraud(item);
      assert IsSuspicious(item);
    }
    if Includes(items, IsMerelySuspicious) {
      var item :| item in items && IsMerelySuspicious(item);
      assert IsSuspicious(item);
    }
  }

  lemma NoConflict(items: seq<Participation>, custody: seq<CustodyEvent>)
    ensures ConflictCount(items, custody) == 0 <==>
            && !SomeDisagree(items) && (forall x :: x in items ==> !Contradicted(x))
            && CloseConfidences(items) && CloseTimes(items) && CustodyAgrees(items, custody)
  {
    CountParts(items, custody);
    NoSpread(items);
    NoOwners(items, Contradicted);
    NoMismatch(items, custody);
  }

  lemma NoSpread(items: seq<Participation>)
    ensures !SomeDiverge(items) <==> CloseConfidences(items)
    ensures !SomeFarApart(items) <==> CloseTimes(items)
  {
    forall x, y | x in items && y in items && !SomeDiverge(items) && HasConfidence(x) && HasConfidence(y)
      ensures -0.4 < ConfidenceOf(x) - ConfidenceOf(y) < 0.4
    {
      assert !Diverge(x, y) && !Diverge(y, x);
    }
    forall x, y | x in items && y in items && !SomeFarApart(items) && Completed(x) && Completed(y)
      ensures -86_400_000_000 <= CompletedAt(x) - CompletedAt(y) <= 86_400_000_000
    {
      assert !FarApart(x, y) && !FarApart(y, x);
    }
  }

  lemma NoOwners(items: seq<Participation>, p: Participation -> bool)
    ensures |Owners(items, p)| == 0 <==> forall x :: x in items ==> !p(x)
  {
    if x :| x in items && p(x) {
      assert x.id in Owners(items, p);
    }
  }

  lemma NoMismatch(items: seq<Participation>, custody: seq<CustodyEvent>)
    ensures |MismatchedIds(items, custody)| == 0 <==> CustodyAgrees(items, custody)
  {
    NoOwners(items, item => Mismatched(custody, item));
  }

  lemma VerdictPermuted(items: seq<Participation>, others: seq<Participation>, conflicts: nat)
    requires multiset(items) == multiset(others)
    ensures CaseVerdict(items, conflicts) == CaseVerdict(others, conflicts)
  {
    PermutedMembers(items, others);
    KeepPermuted(items, others, HasVerdict);
    KeepPermuted(items, others, IsReachable);
    KeepPermuted(Keep(items, HasVerdict), Keep(others, HasVerdict), IsFraud);
    KeepPermuted(Keep(items, HasVerdict), Keep(others, HasVerdict), IsMerelySuspicious);
    KeepPermuted(Keep(items, HasVerdict), Keep(others, HasVerdict), IsGenuine);
    assert |Keep(items, IsReachable)| == |Keep(others, IsReachable)|;
    assert |Keep(items, HasVerdict)| == |Keep(others, HasVerdict)|;
  }

  /** Neither verdict nor confidence depends on the order of the evidence. */
  lemma VerdictOrderIrrelevant(items: seq<Participation>, others: seq<Participation>, custody: seq<CustodyEvent>)
    requires multiset(items) == multiset(others)
    ensures CaseVerdict(items, ConflictCount(items, custody)) == CaseVerdict(others, ConflictCount(others, custody))
    ensures CaseConfidence(items) == CaseConfidence(others)
  {
    RiskOrderIrrelevant(items, others, custody);
    VerdictPermuted(items, others, ConflictCount(items, custody));
    ConfidencePermuted(items, others);
  }

  lemma ConfidencePermuted(items: seq<Participation>, others: seq<Participation>)
    requires multiset(items) == multiset(others)
    ensures CaseConfidence(items) == CaseConfidence(others)
  {
    var xs, ys := Keep(items, IsConfident), Keep(others, IsConfident);
    KeepPermuted(items, others, IsConfident);
    TotalPermuted(xs, ys, ConfidenceOf);
  }

  // ----- the synthesis -------------------------------------------------------------------

  datatype Assessment = Assessment(
    verdict: Verdict,
    risk: Option<int>,
    confidence: Option<int>,
    coverage: Coverage,
    conflicts: seq<Conflict>,
    supporting: seq<Uuid>,
    contradictory: seq<Uuid>)

  method SynthesizeCase(items: seq<Participation>, custody: seq<CustodyEvent>) returns (a: Assessment)
    ensures IsUnique(Raised(items, Consistency(items, custody)), ConflictId, a.conflicts)
    ensures |a.conflicts| == a.coverage.openConflicts == ConflictCount(items, custody)
    ensures a.risk == CaseRisk(items, |a.conflicts|)
    ensures a.confidence == CaseConfidence(items)
    ensures a.verdict == CaseVerdict(items, |a.conflicts|)
    ensures a.supporting == Each(Keep(items, IsSuspicious), IdOf) && a.contradictory == Each(Keep(items, IsGenuine), IdOf)
  {
    var consistency := AnalyzeConsistency(items, custody);
    var conflicts := DetectCaseConflicts(items, consistency);
    ConflictsCounted(items, custody, conflicts);
    var coverage := ComputeCoverage(items, |conflicts|);
    if |items| == 0 {
      return Assessment(Verdict.InsufficientEvidence, None, None, coverage, conflicts, [], []);
    }
    return Assessment(CaseVerdict(items, |conflicts|), CaseRisk(items, |conflicts|), CaseConfidence(items), coverage,
                      conflicts, Each(Keep(items, IsSuspicious), IdOf), Each(Keep(items, IsGenuine), IdOf));
  }
}
