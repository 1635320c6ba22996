/** What the correlation engine promises about its whole output. */
module CorrelationTheorems {
  import opened Bags
  import opened CorrelationEngine
  import opened CorrelationMatchers
  import opened CorrelationModel
  import opened Rounding
  import opened Sorting
  import opened Text

  // ----- one correlation per kind and pair -----------------------------------------------

  ghost predicate Reports(out: seq<Correlation>, k: Kind, a: Uuid, b: Uuid, c: Correlation) {
    c in out && c.kind == k && SamePair(c.left, c.right, a, b)
  }

  lemma Ordered(signals: seq<Signals>, out: seq<Correlation>, c: Correlation)
    requires IsOutput(signals, out) && c in out
    ensures Le(c.left, c.right) && Wanted(signals, c.kind, c)
    ensures !IsLink(c.kind) ==> c.left != c.right
  {
    WantedOfKind(signals, c.kind, c);
    if !IsLink(c.kind) {
      var l, r :| l in signals && r in signals && Before(l, r) && PairCorrelation(c.kind, l, r, c);
      PairCorrelationShape(c.kind, l, r, c);
    }
  }

  /** No kind reports a pair of items twice, in whichever order the pair is named. */
  lemma OnePerPair(signals: seq<Signals>, out: seq<Correlation>, k: Kind, a: Uuid, b: Uuid, c: Correlation, d: Correlation)
    requires DistinctIds(signals) && IsOutput(signals, out)
    requires Reports(out, k, a, b, c) && Reports(out, k, a, b, d)
    ensures c == d
  {
    Ordered(signals, out, c);
    Ordered(signals, out, d);
    WantedOfKind(signals, k, c);
    WantedOfKind(signals, k, d);
    KeyInjective(c.left, c.right, k, d.left, d.right, k);
    WantedByKey(signals, k, c, d);
  }

  /** The pairwise correlation of two items, in whichever order they are named. */
  ghost predicate Between(k: Kind, a: Signals, b: Signals, c: Correlation) {
    if Before(a, b) then PairCorrelation(k, a, b, c) else PairCorrelation(k, b, a, c)
  }

  lemma ReportsPair(signals: seq<Signals>, out: seq<Correlation>, k: Kind, a: Signals, b: Signals, c: Correlation)
    requires DistinctIds(signals) && IsOutput(signals, out) && !IsLink(k)
    requires a in signals && b in signals && a.id != b.id
    ensures Reports(out, k, a.id, b.id, c) <==> Between(k, a, b, c)
  {
    LeTotal(a.id, b.id);
    TwoItems(signals, a, b);
    var l, r := if Before(a, b) then a else b, if Before(a, b) then b else a;
    if Reports(out, k, a.id, b.id, c) {
      var s, t :| s in signals && t in signals && Before(s, t) && PairCorrelation(k, s, t, c);
      PairCorrelationShape(k, s, t, c);
      SameOrderedPair(signals, l, r, s, t);
    }
    if Between(k, a, b, c) {
      PairCorrelationShape(k, l, r, c);
      assert Wanted(signals, k, c);
    }
  }

  lemma SameOrderedPair(signals: seq<Signals>, l: Signals, r: Signals, s: Signals, t: Signals)
    requires DistinctIds(signals) && l in signals && r in signals && s in signals && t in signals
    requires Before(l, r) && Before(s, t) && SamePair(l.id, r.id, s.id, t.id)
    ensures l == s && r == t
  {
    if l.id == t.id {
      LeAntisymmetric(l.id, r.id);
    }
    SameItem(signals, l, s);
    SameItem(signals, r, t);
  }

  lemma TwoItems(signals: seq<Signals>, a: Signals, b: Signals)
    requires a in signals && b in signals && a != b
    ensures |signals| >= 2
  {}

  /** The inverted index agrees with the pairwise definition: two items are reported for an exact
      kind exactly when they share a non-empty value, and the value named is the smallest. */
  lemma ExactKindCharacterized(signals: seq<Signals>, out: seq<Correlation>, k: Kind, a: Signals, b: Signals)
    requires DistinctIds(signals) && IsOutput(signals, out) && IsExact(k)
    requires a in signals && b in signals && a.id != b.id
    ensures (exists c :: Reports(out, k, a.id, b.id, c)) <==>
              exists v :: v != "" && v in Values(k, a) && v in Values(k, b)
    ensures forall c :: Reports(out, k, a.id, b.id, c) ==> |c.entities| == 1 && IsLeast(c.entities[0], Shared(k, a, b))
  {
    SharedSymmetric(k, a, b);
    forall c | Reports(out, k, a.id, b.id, c) ensures |c.entities| == 1 && IsLeast(c.entities[0], Shared(k, a, b)) {
      ReportsPair(signals, out, k, a, b, c);
      BetweenExact(k, a, b, c);
    }
    if exists v :: v != "" && v in Values(k, a) && v in Values(k, b) {
      var v :| v != "" && v in Values(k, a) && v in Values(k, b);
      assert v in Shared(k, a, b);
      var c := SomeExact(k, a, b);
      ReportsPair(signals, out, k, a, b, c);
    }
    if c :| Reports(out, k, a.id, b.id, c) {
      assert c.entities[0] in Shared(k, a, b);
    }
  }

  lemma SharedSymmetric(k: Kind, a: Signals, b: Signals)
    requires IsExact(k)
    ensures Shared(k, a, b) == Shared(k, b, a)
  {}

  lemma BetweenExact(k: Kind, a: Signals, b: Signals, c: Correlation)
    requires IsExact(k) && Between(k, a, b, c)
    ensures |c.entities| == 1 && IsLeast(c.entities[0], Shared(k, a, b))
  {
    SharedSymmetric(k, a, b);
    if Before(a, b) {
      var v := LeastShared(k, a, b, c);
    } else {
      var v := LeastShared(k, b, a, c);
    }
  }

  lemma SomeExact(k: Kind, a: Signals, b: Signals) returns (c: Correlation)
    requires IsExact(k) && Shared(k, a, b) != {}
    ensures Between(k, a, b, c)
  {
    SharedSymmetric(k, a, b);
    var v := Least(Shared(k, a, b));
    c := if Before(a, b) then ExactCorrelation(k, a, b, v) else ExactCorrelation(k, b, a, v);
  }

  // ----- the order of the rows -----------------------------------------------------------

  function Slots(out: seq<Correlation>): (r: seq<Slot>)
    ensures |r| == |out|
    ensures forall i :: 0 <= i < |out| ==> r[i] == SlotOf(out[i])
  {
    seq(|out|, i requires 0 <= i < |out| => SlotOf(out[i]))
  }

  lemma SlotLtAsymmetric(c: Slot, d: Slot)
    ensures SlotLt(c, d) ==> !SlotLt(d, c)
  {
    if SlotLt(c, d) && SlotLt(d, c) {
      if c.kind != d.kind {
        LeAntisymmetric(KindValue(c.kind), KindValue(d.kind));
        KindValueInjective(c.kind, d.kind);
      } else if c.left != d.left {
        LeAntisymmetric(c.left, d.left);
      } else {
        LeAntisymmetric(c.right, d.right);
      }
    }
  }

  ghost predicate SameElements<T(!new)>(xs: seq<T>, ys: seq<T>) {
    forall x :: x in xs <==> x in ys
  }

  /** Which links there are does not depend on the order of the rows. */
  lemma {:induction false} LinksAre(k: Kind, signals: seq<Signals>)
    requires IsLink(k)
    ensures forall link :: link in Links(k, signals) <==> exists s :: s in signals && link in LinksOf(s.id, Matches(k, s))
  {
    if signals != [] {
      var n := |signals| - 1;
      LinksAre(k, signals[..n]);
      forall link ensures link in Links(k, signals) <==> exists s :: s in signals && link in LinksOf(s.id, Matches(k, s)) {
        assert forall s :: s in signals <==> s in signals[..n] || s == signals[n];
      }
    }
  }

  lemma {:induction false} FirstLinkExists(k: Kind, links: seq<Link>, n: nat) returns (i: int)
    requires IsLink(k) && n < |links|
    ensures 0 <= i < |links| && FirstLink(k, links, i, LinkCorrelation(k, links[i]))
    ensures SamePair(links[i].left, links[i].right, links[n].left, links[n].right)
    decreases n
  {
    i := n;
    if j :| 0 <= j < n && SamePair(links[j].left, links[j].right, links[n].left, links[n].right) {
      i := FirstLinkExists(k, links, j);
    }
  }

  /** A wanted correlation of one row order has a counterpart in any other, for the same kind and
      pair, and for a pairwise kind it is the same correlation. */
  lemma Counterpart(p: seq<Signals>, q: seq<Signals>, k: Kind, c: Correlation) returns (d: Correlation)
    requires SameElements(p, q) && Wanted(p, k, c)
    ensures Wanted(q, k, d) && SlotOf(d) == SlotOf(c)
    ensures !IsLink(k) ==> d == c
  {
    if IsLink(k) {
      var i :| FirstLink(k, Links(k, p), i, c);
      var link := Links(k, p)[i];
      LinksAre(k, p);
      LinksAre(k, q);
      assert link in Links(k, p);
      assert link in Links(k, q);
      var n :| 0 <= n < |Links(k, q)| && Links(k, q)[n] == link;
      var j := FirstLinkExists(k, Links(k, q), n);
      d := LinkCorrelation(k, Links(k, q)[j]);
      SameSlot(k, link, Links(k, q)[j]);
    } else {
      d := c;
    }
  }

  lemma SameSlot(k: Kind, x: Link, y: Link)
    requires IsLink(k) && SamePair(x.left, x.right, y.left, y.right)
    ensures SlotOf(LinkCorrelation(k, x)) == SlotOf(LinkCorrelation(k, y))
  {
    CanonicalPairOf(x.left, x.right);
  }

  lemma SlotsIncluded(p: seq<Signals>, q: seq<Signals>, x: seq<Correlation>, y: seq<Correlation>)
    requires SameElements(p, q) && |p| >= 2 && |q| >= 2
    requires IsOutput(p, x) && IsOutput(q, y)
    ensures forall slot :: slot in Slots(x) ==> slot in Slots(y)
  {
    forall slot | slot in Slots(x) ensures slot in Slots(y) {
      var i :| 0 <= i < |x| && Slots(x)[i] == slot;
      assert x[i] in x;
      var d := Counterpart(p, q, x[i].kind, x[i]);
      var j :| 0 <= j < |y| && y[j] == d;
      assert Slots(y)[j] == slot;
    }
  }

  /** Reading the evidence rows in another order changes nothing but which of several matches of
      one pair supports a signature or speaker correlation: kinds, pairs and their order are the
      same, and every other correlation is the same record at the same place. */
  lemma RowOrderIrrelevant(p: seq<Signals>, q: seq<Signals>, x: seq<Correlation>, y: seq<Correlation>)
    requires multiset(p) == multiset(q) && DistinctIds(p) && DistinctIds(q)
    requires IsOutput(p, x) && IsOutput(q, y)
    ensures Slots(x) == Slots(y)
    ensures forall i :: 0 <= i < |x| && !IsLink(x[i].kind) ==> x[i] == y[i]
  {
    assert |multiset(p)| == |multiset(q)|;
    forall s ensures s in p <==> s in q {
      assert s in multiset(p) <==> s in multiset(q);
    }
    if |p| >= 2 {
      SlotsIncluded(p, q, x, y);
      SlotsIncluded(q, p, y, x);
      forall c, d ensures SlotLt(c, d) ==> !SlotLt(d, c) {
        SlotLtAsymmetric(c, d);
      }
      AscendingUnique(Slots(x), Slots(y), SlotLt);
      forall i | 0 <= i < |x| && !IsLink(x[i].kind) ensures x[i] == y[i] {
        SamePlace(p, q, x, y, i);
      }
    }
  }

  lemma SamePlace(p: seq<Signals>, q: seq<Signals>, x: seq<Correlation>, y: seq<Correlation>, i: int)
    requires SameElements(p, q) && DistinctIds(p) && DistinctIds(q) && |p| >= 2 && |q| >= 2
    requires IsOutput(p, x) && IsOutput(q, y) && Slots(x) == Slots(y)
    requires 0 <= i < |x| && !IsLink(x[i].kind)
    ensures x[i] == y[i]
  {
    assert x[i] in x && y[i] in y;
    assert SlotOf(x[i]) == Slots(x)[i] == Slots(y)[i] == SlotOf(y[i]);
    var d := Counterpart(p, q, x[i].kind, x[i]);
    WantedOfKind(q, d.kind, d);
    WantedOfKind(q, y[i].kind, y[i]);
    WantedByKey(q, d.kind, d, y[i]);
  }

  // ----- stored links --------------------------------------------------------------------

  /** A match stored with `s` names the unordered pair. */
  ghost predicate NamesPair(k: Kind, s: Signals, a: Uuid, b: Uuid)
    requires IsLink(k)
  {
    exists j :: 0 <= j < |Matches(k, s)| && SamePair(s.id, Matches(k, s)[j].other, a, b)
  }

  lemma LinkStored(signals: seq<Signals>, k: Kind, link: Link)
    requires IsLink(k) && link in Links(k, signals)
    ensures exists s :: s in signals && NamesPair(k, s, link.left, link.right)
  {
    LinksAre(k, signals);
    var s :| s in signals && link in LinksOf(s.id, Matches(k, s));
    var j :| 0 <= j < |Matches(k, s)| && LinksOf(s.id, Matches(k, s))[j] == link;
    assert SamePair(s.id, Matches(k, s)[j].other, link.left, link.right);
  }

  lemma LinkFound(signals: seq<Signals>, k: Kind, s: Signals, a: Uuid, b: Uuid) returns (n: nat)
    requires IsLink(k) && s in signals && NamesPair(k, s, a, b)
    ensures n < |Links(k, signals)| && SamePair(Links(k, signals)[n].left, Links(k, signals)[n].right, a, b)
  {
    LinksAre(k, signals);
    var j :| 0 <= j < |Matches(k, s)| && SamePair(s.id, Matches(k, s)[j].other, a, b);
    var link := LinksOf(s.id, Matches(k, s))[j];
    assert link in LinksOf(s.id, Matches(k, s));
    assert link in Links(k, signals);
    n :| 0 <= n < |Links(k, signals)| && Links(k, signals)[n] == link;
  }

  lemma FirstReported(signals: seq<Signals>, out: seq<Correlation>, k: Kind, n: nat, a: Uuid, b: Uuid)
    requires IsOutput(signals, out) && IsLink(k) && |signals| >= 2
    requires n < |Links(k, signals)| && SamePair(Links(k, signals)[n].left, Links(k, signals)[n].right, a, b)
    ensures exists c :: Reports(out, k, a, b, c)
  {
    var i := FirstLinkExists(k, Links(k, signals), n);
    var link := Links(k, signals)[i];
    MadeOfKind(link.left, link.right, k, [link.support], [link.support]);
    assert Wanted(signals, k, LinkCorrelation(k, link));
    assert Reports(out, k, a, b, LinkCorrelation(k, link));
  }

  lemma ReportedFirst(signals: seq<Signals>, out: seq<Correlation>, k: Kind, a: Uuid, b: Uuid, c: Correlation) returns (link: Link)
    requires IsOutput(signals, out) && IsLink(k) && Reports(out, k, a, b, c)
    ensures link in Links(k, signals) && SamePair(link.left, link.right, a, b)
  {
    var i :| FirstLink(k, Links(k, signals), i, c);
    link := Links(k, signals)[i];
    MadeOfKind(link.left, link.right, k, [link.support], [link.support]);
  }

  /** A signature or speaker correlation is reported for a pair exactly when some stored match
      names it. */
  lemma LinkCharacterized(signals: seq<Signals>, out: seq<Correlation>, k: Kind, a: Uuid, b: Uuid)
    requires IsOutput(signals, out) && IsLink(k)
    ensures (exists c :: Reports(out, k, a, b, c)) <==> |signals| >= 2 && exists s :: s in signals && NamesPair(k, s, a, b)
  {
    if c :| Reports(out, k, a, b, c) {
      var link := ReportedFirst(signals, out, k, a, b, c);
      LinkStored(signals, k, link);
      var s :| s in signals && NamesPair(k, s, link.left, link.right);
      assert NamesPair(k, s, a, b);
    }
    if |signals| >= 2 {
      if s :| s in signals && NamesPair(k, s, a, b) {
        var n := LinkFound(signals, k, s, a, b);
        FirstReported(signals, out, k, n, a, b);
      }
    }
  }

  // ----- timeline events -----------------------------------------------------------------

  /** Whenever some events overlap there is a best overlap. */
  lemma {:induction false} BestOverlapExists(ls: seq<Event>, rs: seq<Event>, i: nat, j: nat)
    requires i < |ls| && j < |rs| && Overlaps(ls[i], rs[j])
    ensures exists o :: IsOverlap(ls, rs, o)
    decreases GapMs(ls[i], rs[j]), i, j
  {
    if x, y :| 0 <= x < |ls| && 0 <= y < |rs| && Overlaps(ls[x], rs[y])
               && (GapMs(ls[x], rs[y]) < GapMs(ls[i], rs[j])
                   || (GapMs(ls[x], rs[y]) == GapMs(ls[i], rs[j]) && (x < i || (x == i && y < j)))) {
      BestOverlapExists(ls, rs, x, y);
    } else {
      assert IsBestOverlap(ls, rs, i, j);
      assert IsOverlap(ls, rs, Overlap(ls[i].id, rs[j].id, GapMs(ls[i], rs[j])));
    }
  }

  lemma OverlapsSymmetric(l: Event, r: Event)
    ensures Overlaps(l, r) == Overlaps(r, l)
    ensures Overlaps(l, r) ==> GapMs(l, r) == GapMs(r, l)
  {}

  /** Swapping the two event lists changes neither whether an overlap is found nor its gap. */
  lemma OverlapSwaps(ls: seq<Event>, rs: seq<Event>, o: Overlap)
    requires IsOverlap(ls, rs, o)
    ensures exists u :: IsOverlap(rs, ls, u)
    ensures forall u :: IsOverlap(rs, ls, u) ==> u.gapMs == o.gapMs
  {
    var i: nat, j: nat :| IsBestOverlap(ls, rs, i, j) && o == Overlap(ls[i].id, rs[j].id, GapMs(ls[i], rs[j]));
    OverlapsSymmetric(ls[i], rs[j]);
    BestOverlapExists(rs, ls, j, i);
    forall u | IsOverlap(rs, ls, u) ensures u.gapMs == o.gapMs {
      var x: nat, y: nat :| IsBestOverlap(rs, ls, x, y) && u == Overlap(rs[x].id, ls[y].id, GapMs(rs[x], ls[y]));
      OverlapsSymmetric(ls[y], rs[x]);
    }
  }

  ghost predicate SomeOverlap(ls: seq<Event>, rs: seq<Event>) {
    exists x, y :: x in ls && y in rs && Overlaps(x, y)
  }

  lemma OverlapFound(ls: seq<Event>, rs: seq<Event>)
    ensures (exists o :: IsOverlap(ls, rs, o)) <==> SomeOverlap(ls, rs)
    ensures SomeOverlap(ls, rs) <==> SomeOverlap(rs, ls)
  {
    if o :| IsOverlap(ls, rs, o) {
      var i: nat, j: nat :| IsBestOverlap(ls, rs, i, j);
      assert ls[i] in ls && rs[j] in rs;
    }
    if x, y :| x in ls && y in rs && Overlaps(x, y) {
      var i :| 0 <= i < |ls| && ls[i] == x;
      var j :| 0 <= j < |rs| && rs[j] == y;
      BestOverlapExists(ls, rs, i, j);
      OverlapsSymmetric(x, y);
    }
    if x, y :| x in rs && y in ls && Overlaps(x, y) {
      OverlapsSymmetric(x, y);
    }
  }

  /** A temporal overlap is reported for a pair exactly when two of its events overlap. */
  lemma TemporalCharacterized(signals: seq<Signals>, out: seq<Correlation>, a: Signals, b: Signals)
    requires DistinctIds(signals) && IsOutput(signals, out)
    requires a in signals && b in signals && a.id != b.id
    ensures (exists c :: Reports(out, TemporalOverlap, a.id, b.id, c)) <==>
              exists x, y :: x in a.events && y in b.events && Overlaps(x, y)
  {
    var l, r := if Before(a, b) then a else b, if Before(a, b) then b else a;
    OverlapFound(l.events, r.events);
    forall c ensures Reports(out, TemporalOverlap, a.id, b.id, c) <==> PairCorrelation(TemporalOverlap, l, r, c) {
      ReportsPair(signals, out, TemporalOverlap, a, b, c);
    }
    TemporalPair(l, r);
    assert SomeOverlap(a.events, b.events) <==> SomeOverlap(l.events, r.events);
  }

  lemma TemporalPair(l: Signals, r: Signals)
    ensures (exists c :: PairCorrelation(TemporalOverlap, l, r, c)) <==> exists o :: IsOverlap(l.events, r.events, o)
  {
    if o :| IsOverlap(l.events, r.events, o) {
      assert PairCorrelation(TemporalOverlap, l, r, TemporalCorrelation(l, r, o));
    }
  }

  // ----- file names ----------------------------------------------------------------------

  lemma UnionSize(l: set<string>, r: set<string>)
    ensures |l * r| <= |l + r|
    ensures |l * r| == |l + r| <==> l == r
  {
    assert l + r == (l * r) + ((l + r) - (l * r));
    assert |l + r| == |l * r| + |(l + r) - (l * r)|;
    if |l * r| == |l + r| {
      assert (l + r) - (l * r) == {};
      assert forall x :: x in l ==> x in l + r;
      assert forall x :: x in r ==> x in l + r;
    }
    assert l == r ==> l * r == l + r;
  }

  /** Similarity is symmetric, stays in [0, 1], and is compared with the threshold as if it had
      not been rounded, as long as the names have at most 10000 tokens together. */
  lemma SimilarityDecides(left: string, right: string)
    ensures FilenameSimilarity(left, right) == FilenameSimilarity(right, left)
    ensures 0 <= FilenameSimilarity(left, right) <= 10000
    ensures var l, r := FilenameTokens(left), FilenameTokens(right);
            && (FilenameSimilarity(left, right) >= THRESHOLD <==>
                  l != {} && r != {} && 20000 * |l * r| >= 9999 * |l + r|)
            && (|l + r| <= 10000 ==>
                  (FilenameSimilarity(left, right) >= THRESHOLD <==> l != {} && r != {} && 2 * |l * r| >= |l + r|))
            && (|l + r| < 20000 ==> (FilenameSimilarity(left, right) == 10000 <==> l == r && l != {}))
  {
    var l, r := FilenameTokens(left), FilenameTokens(right);
    assert l * r == r * l && l + r == r + l;
    UnionSize(l, r);
    if l != {} && r != {} {
      var part, whole := |l * r|, |l + r|;
      assert l + r != {};
      RatioInUnitInterval(part, whole);
      RatioThreshold(part, whole, 5000);
      RatioThreshold(part, whole, 10000);
    }
  }

  /** Longest file name that is stored (backend/app/models/evidence.py:66). */
  const FILENAME_LIMIT := 255

  lemma SetOfSeq(xs: seq<string>)
    ensures |set x | x in xs| <= |xs|
  {
    if xs == [] {
      assert (set x | x in xs) == {};
    } else {
      var rest := xs[1..];
      SetOfSeq(rest);
      assert xs == [xs[0]] + rest;
      assert (set x | x in xs) == {xs[0]} + set x | x in rest;
    }
  }

  /** A name has at most one token for every three characters. */
  lemma TokensFew(name: string)
    ensures 3 * |FilenameTokens(name)| <= |name| + 1
  {
    var words := Words(Cleaned(name));
    LongWordsFew(Cleaned(name));
    KeepMembers(words, IsLong);
    SetOfSeq(Keep(words, IsLong));
    assert FilenameTokens(name) == set w | w in Keep(words, IsLong);
  }

  /** For names that can be stored, rounding never decides: two of them are similar exactly when
      at least half of their tokens are shared, and fully so exactly for equal token sets. */
  lemma StoredNamesDecide(left: string, right: string)
    requires |left| <= FILENAME_LIMIT && |right| <= FILENAME_LIMIT
    ensures var l, r := FilenameTokens(left), FilenameTokens(right);
            && (FilenameSimilarity(left, right) >= THRESHOLD <==> l != {} && r != {} && 2 * |l * r| >= |l + r|)
            && (FilenameSimilarity(left, right) == 10000 <==> l == r && l != {})
  {
    var l, r := FilenameTokens(left), FilenameTokens(right);
    TokensFew(left);
    TokensFew(right);
    assert |l + r| == |l| + |r| - |l * r|;
    SimilarityDecides(left, right);
  }

  /** The tokens of a name are its maximal stretches between separators, of two or more
      characters, in lower case. */
  lemma TokensCharacterized(name: string, w: string)
    ensures w in FilenameTokens(name) <==> IsWord(Cleaned(name), w) && |w| > 1
  {
    WordsAreMaximalRuns(Cleaned(name), w);
  }
}
