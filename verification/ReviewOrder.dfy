/** The order in which stored checklist items are read (backend/app/case_review/repository.py:103-116):
    by the text of their code.  The second part of the sort key is never looked at, because a run
    has one item of each code. */
module ReviewOrder {
  import opened Bags
  import opened Dedup
  import opened ReviewChecklist
  import opened ReviewModel
  import opened Sorting
  import opened Text

  /** The text stored and sorted by. */
  function CodeText(code: Code): string {
    match code
    case EvidenceIntegrity => "EVIDENCE_INTEGRITY"
    case Sha256Verified => "SHA256_VERIFIED"
    case MetadataVerified => "METADATA_VERIFIED"
    case ChainOfCustodyComplete => "CHAIN_OF_CUSTODY_COMPLETE"
    case TimelineReviewed => "TIMELINE_REVIEWED"
    case AiFindingsReviewed => "AI_FINDINGS_REVIEWED"
    case FusionReviewed => "FUSION_REVIEWED"
    case CorrelationsReviewed => "CORRELATIONS_REVIEWED"
    case KnowledgeGraphReviewed => "KNOWLEDGE_GRAPH_REVIEWED"
    case HypothesesReviewed => "HYPOTHESES_REVIEWED"
    case RecommendationsReviewed => "RECOMMENDATIONS_REVIEWED"
    case ReportReviewed => "REPORT_REVIEWED"
    case FinalValidation => "FINAL_VALIDATION"
  }

  function ItemText(item: Item): string { CodeText(item.code) }

  /** The stored items as they are read back. */
  function ItemsForRun(items: seq<Item>): seq<Item> { Sorted(items, IdLe(ItemText)) }

  // ----- the alphabet of codes -----------------------------------------------------------

  /** The codes in the order of their texts. */
  const ALPHABETICAL: seq<Code> :=
    [AiFindingsReviewed, ChainOfCustodyComplete, CorrelationsReviewed, EvidenceIntegrity, FinalValidation,
     FusionReviewed, HypothesesReviewed, KnowledgeGraphReviewed, MetadataVerified, RecommendationsReviewed,
     ReportReviewed, Sha256Verified, TimelineReviewed]

  function Rank(code: Code): (i: int)
    ensures 0 <= i < |ALPHABETICAL| && ALPHABETICAL[i] == code
  {
    match code
    case AiFindingsReviewed => 0
    case ChainOfCustodyComplete => 1
    case CorrelationsReviewed => 2
    case EvidenceIntegrity => 3
    case FinalValidation => 4
    case FusionReviewed => 5
    case HypothesesReviewed => 6
    case KnowledgeGraphReviewed => 7
    case MetadataVerified => 8
    case RecommendationsReviewed => 9
    case ReportReviewed => 10
    case Sha256Verified => 11
    case TimelineReviewed => 12
  }

  datatype Initials = Initials(first: char, second: char, third: char)

  function InitialsOf(code: Code): Initials {
    match code
    case AiFindingsReviewed => Initials('A', 'I', '_')
    case ChainOfCustodyComplete => Initials('C', 'H', 'A')
    case CorrelationsReviewed => Initials('C', 'O', 'R')
    case EvidenceIntegrity => Initials('E', 'V', 'I')
    case FinalValidation => Initials('F', 'I', 'N')
    case FusionReviewed => Initials('F', 'U', 'S')
    case HypothesesReviewed => Initials('H', 'Y', 'P')
    case KnowledgeGraphReviewed => Initials('K', 'N', 'O')
    case MetadataVerified => Initials('M', 'E', 'T')
    case RecommendationsReviewed => Initials('R', 'E', 'C')
    case ReportReviewed => Initials('R', 'E', 'P')
    case Sha256Verified => Initials('S', 'H', 'A')
    case TimelineReviewed => Initials('T', 'I', 'M')
  }

  predicate InitialsLt(a: Initials, b: Initials) {
    a.first < b.first || (a.first == b.first && (a.second < b.second || (a.second == b.second && a.third < b.third)))
  }

  lemma TextStarts(code: Code)
    ensures var t := CodeText(code); |t| >= 3 && Initials(t[0], t[1], t[2]) == InitialsOf(code)
  {}

  lemma RankIsInitials(x: Code, y: Code)
    requires Rank(x) < Rank(y)
    ensures InitialsLt(InitialsOf(x), InitialsOf(y))
  {}

  lemma InitialsDecide(a: string, b: string)
    requires |a| >= 3 && |b| >= 3 && InitialsLt(Initials(a[0], a[1], a[2]), Initials(b[0], b[1], b[2]))
    ensures Le(a, b) && a != b
  {
    var c, d := a[1..], b[1..];
    assert c[0] == a[1] && d[0] == b[1] && c[1..][0] == a[2] && d[1..][0] == b[2];
  }

  /** Codes further on in the alphabet have greater texts. */
  lemma RankIsTextOrder(x: Code, y: Code)
    ensures Rank(x) < Rank(y) ==> Le(CodeText(x), CodeText(y)) && CodeText(x) != CodeText(y)
    ensures x != y && Le(CodeText(x), CodeText(y)) ==> Rank(x) < Rank(y)
  {
    TextStarts(x);
    TextStarts(y);
    if Rank(x) < Rank(y) {
      RankIsInitials(x, y);
      InitialsDecide(CodeText(x), CodeText(y));
    } else if Rank(y) < Rank(x) {
      RankIsInitials(y, x);
      InitialsDecide(CodeText(y), CodeText(x));
      if Le(CodeText(x), CodeText(y)) {
        LeAntisymmetric(CodeText(x), CodeText(y));
      }
    }
  }

  // ----- lists that climb ----------------------------------------------------------------

  /** Every element ranks above those before it. */
  ghost predicate Climbs<T>(xs: seq<T>, rank: T -> int) {
    forall i, j :: 0 <= i < j < |xs| ==> rank(xs[i]) < rank(xs[j])
  }

  lemma {:induction false} KeepClimbs(xs: seq<Item>, p: Item -> bool, rank: Item -> int)
    requires Climbs(xs, rank)
    ensures Climbs(Keep(xs, p), rank)
  {
    if xs != [] {
      var rest, kept := xs[1..], Keep(xs[1..], p);
      KeepClimbs(rest, p, rank);
      KeepMembers(rest, p);
      forall j | 0 <= j < |kept| ensures rank(xs[0]) < rank(kept[j]) {
        assert kept[j] in kept;
        var i :| 0 <= i < |rest| && rest[i] == kept[j];
        assert xs[i + 1] == kept[j];
      }
    }
  }

  lemma EachClimbs(xs: seq<Item>, f: Item -> Code, rank: Code -> int)
    requires forall i, j :: 0 <= i < j < |xs| ==> rank(f(xs[i])) < rank(f(xs[j]))
    ensures Climbs(Each(xs, f), rank)
  {
    var ys := Each(xs, f);
    forall i, j | 0 <= i < j < |ys| ensures rank(ys[i]) < rank(ys[j]) {
      assert ys[i] == f(xs[i]) && ys[j] == f(xs[j]);
    }
  }

  lemma SortedFacts(items: seq<Item>, id: Item -> string)
    requires Distinct(items)
    ensures var listed := Sorted(items, IdLe(id));
            && Distinct(listed) && (forall x :: x in listed ==> x in items)
            && forall i, j :: 0 <= i < j < |listed| ==> Le(id(listed[i]), id(listed[j]))
  {
    var listed := Sorted(items, IdLe(id));
    IdLeIsTotalPreorder(id);
    SortedIsPermutation(items, IdLe(id));
    SortedIsAscending(items, IdLe(id));
    SortedIsDistinct(items, IdLe(id));
    forall i, j | 0 <= i < j < |listed| ensures Le(id(listed[i]), id(listed[j])) {
      assert IdLe(id)(listed[i], listed[j]);
    }
  }

  /** Sorting by a text that agrees with the ranks makes a list without ties climb. */
  lemma SortedClimbs(items: seq<Item>, id: Item -> string, rank: Item -> int)
    requires forall i, j :: 0 <= i < j < |items| ==> rank(items[i]) != rank(items[j])
    requires forall x, y :: rank(x) != rank(y) && Le(id(x), id(y)) ==> rank(x) < rank(y)
    ensures Climbs(Sorted(items, IdLe(id)), rank)
  {
    var listed := Sorted(items, IdLe(id));
    SortedFacts(items, id);
    forall i, j | 0 <= i < j < |listed| ensures rank(listed[i]) < rank(listed[j]) {
      DifferentRanks(items, rank, listed[i], listed[j]);
    }
  }

  lemma DifferentRanks(items: seq<Item>, rank: Item -> int, x: Item, y: Item)
    requires forall i, j :: 0 <= i < j < |items| ==> rank(items[i]) != rank(items[j])
    requires x in items && y in items && x != y
    ensures rank(x) != rank(y)
  {}

  // ----- reading the items of a run ------------------------------------------------------

  /** Codes that come in the order of their texts, none twice. */
  ghost predicate InCodeOrder(codes: seq<Code>) { Climbs(codes, Rank) }

  function RankOf(item: Item): int { Rank(item.code) }

  ghost predicate DistinctCodes(items: seq<Item>) {
    forall i, j :: 0 <= i < j < |items| ==> items[i].code != items[j].code
  }

  lemma SameRank(x: Code, y: Code)
    requires Rank(x) == Rank(y)
    ensures x == y
  {
    assert ALPHABETICAL[Rank(x)] == x && ALPHABETICAL[Rank(y)] == y;
  }

  lemma ListedFacts(items: seq<Item>)
    requires DistinctCodes(items)
    ensures multiset(ItemsForRun(items)) == multiset(items)
    ensures Climbs(ItemsForRun(items), RankOf)
  {
    SortedIsPermutation(items, IdLe(ItemText));
    forall x: Item, y: Item | RankOf(x) != RankOf(y) && Le(ItemText(x), ItemText(y)) ensures RankOf(x) < RankOf(y) {
      RankIsTextOrder(x.code, y.code);
    }
    forall i, j | 0 <= i < j < |items| ensures RankOf(items[i]) != RankOf(items[j]) {
      if Rank(items[i].code) == Rank(items[j].code) {
        SameRank(items[i].code, items[j].code);
      }
    }
    SortedClimbs(items, ItemText, RankOf);
  }

  lemma CodesClimb(items: seq<Item>)
    requires Climbs(items, RankOf)
    ensures InCodeOrder(Each(items, CodeOf))
  {
    forall i, j | 0 <= i < j < |items| ensures Rank(CodeOf(items[i])) < Rank(CodeOf(items[j])) {
      assert RankOf(items[i]) < RankOf(items[j]);
    }
    EachClimbs(items, CodeOf, Rank);
  }

  /** Read back, the items of a run come in the alphabet of the codes. */
  lemma ListedIsAlphabetical(items: seq<Item>)
    requires Each(items, CodeOf) == CHECKLIST
    ensures Each(ItemsForRun(items), CodeOf) == ALPHABETICAL
  {
    OneOfEach(items);
    ListedFacts(items);
    CodesClimb(ItemsForRun(items));
    var codes := Each(ItemsForRun(items), CodeOf);
    forall code ensures code in codes && code in ALPHABETICAL {
      CodeListed(items, code);
      assert ALPHABETICAL[Rank(code)] == code;
    }
    AlphabetClimbs();
    ClimbUnique(codes, ALPHABETICAL, Rank);
  }

  lemma CodeListed(items: seq<Item>, code: Code)
    requires Each(items, CodeOf) == CHECKLIST && multiset(ItemsForRun(items)) == multiset(items)
    ensures code in Each(ItemsForRun(items), CodeOf)
  {
    var listed := ItemsForRun(items);
    var i := CodeInPolicy(code);
    assert Each(items, CodeOf)[i] == items[i].code;
    PermutedMembers(listed, items);
    assert items[i] in listed;
    var j :| 0 <= j < |listed| && listed[j] == items[i];
    assert Each(listed, CodeOf)[j] == code;
  }

  lemma ClimbUnique(xs: seq<Code>, ys: seq<Code>, rank: Code -> int)
    requires Climbs(xs, rank) && Climbs(ys, rank) && forall x :: x in xs <==> x in ys
    ensures xs == ys
  {
    AscendingUnique(xs, ys, (x: Code, y: Code) => rank(x) < rank(y));
  }

  lemma AlphabetClimbs()
    ensures InCodeOrder(ALPHABETICAL)
  {
    forall i | 0 <= i < |ALPHABETICAL| ensures Rank(ALPHABETICAL[i]) == i {}
    forall i, j | 0 <= i < j < |ALPHABETICAL| ensures Rank(ALPHABETICAL[i]) < Rank(ALPHABETICAL[j]) {}
  }

  lemma OneOfEach(items: seq<Item>)
    requires Each(items, CodeOf) == CHECKLIST
    ensures DistinctCodes(items)
  {
    PolicyDistinct();
    DistinctThrough(items, CodeOf);
    forall i | 0 <= i < |items| ensures CodeOf(items[i]) == items[i].code {}
  }

  lemma DistinctThrough(items: seq<Item>, f: Item -> Code)
    requires forall i, j :: 0 <= i < j < |items| ==> Each(items, f)[i] != Each(items, f)[j]
    ensures forall i, j :: 0 <= i < j < |items| ==> f(items[i]) != f(items[j])
  {
    forall i, j | 0 <= i < j < |items| ensures f(items[i]) != f(items[j]) {
      assert Each(items, f)[i] == f(items[i]) && Each(items, f)[j] == f(items[j]);
    }
  }

  ghost predicate Flagged(items: seq<Item>, p: Item -> bool, code: Code) {
    exists i :: 0 <= i < |items| && items[i].code == code && p(items[i])
  }

  /** `codes` names exactly the items with a property, as many times as there are such items. */
  ghost predicate Names(codes: seq<Code>, items: seq<Item>, p: Item -> bool) {
    |codes| == Count(items, p) && forall code :: code in codes <==> Flagged(items, p, code)
  }

  lemma CodesName(items: seq<Item>, p: Item -> bool)
    ensures Names(Each(Keep(items, p), CodeOf), items, p)
  {
    KeepMembers(items, p);
    var kept := Keep(items, p);
    forall code | code in Each(kept, CodeOf) ensures Flagged(items, p, code) {
      var j :| 0 <= j < |kept| && Each(kept, CodeOf)[j] == code;
      assert kept[j] in kept;
      var i :| 0 <= i < |items| && items[i] == kept[j];
      assert items[i].code == code && p(items[i]);
    }
    forall code | Flagged(items, p, code) ensures code in Each(kept, CodeOf) {
      var i :| 0 <= i < |items| && items[i].code == code && p(items[i]);
      assert items[i] in kept;
      var j :| 0 <= j < |kept| && kept[j] == items[i];
      assert Each(kept, CodeOf)[j] == code;
    }
  }

  lemma FlaggedSame(xs: seq<Item>, ys: seq<Item>, p: Item -> bool, code: Code)
    requires Flagged(xs, p, code) && forall x :: x in xs ==> x in ys
    ensures Flagged(ys, p, code)
  {
    var i :| 0 <= i < |xs| && xs[i].code == code && p(xs[i]);
    assert xs[i] in ys;
    var j :| 0 <= j < |ys| && ys[j] == xs[i];
  }

  /** Codes read off the listed items: the same ones, in the order of their texts. */
  lemma ListedNames(items: seq<Item>, p: Item -> bool)
    requires DistinctCodes(items)
    ensures var codes := Each(Keep(ItemsForRun(items), p), CodeOf); InCodeOrder(codes) && Names(codes, items, p)
  {
    var listed := ItemsForRun(items);
    ListedFacts(items);
    KeepClimbs(listed, p, RankOf);
    CodesClimb(Keep(listed, p));
    CodesName(listed, p);
    KeepPermuted(listed, items, p);
    PermutedMembers(listed, items);
    forall code ensures Flagged(listed, p, code) <==> Flagged(items, p, code) {
      if Flagged(listed, p, code) {
        FlaggedSame(listed, items, p, code);
      }
      if Flagged(items, p, code) {
        FlaggedSame(items, listed, p, code);
      }
    }
  }
}
