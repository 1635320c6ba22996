/** What a temporal overlap is, in terms of the times and uncertainties of the events alone
    (backend/app/correlation/engine.py:710-727). */
module CorrelationTimes {
  import opened CorrelationModel
  import opened Options

  /** Two events with known times (in microseconds) that lie no further apart than the uncertainty
      of either (in milliseconds) or one minute. */
  predicate Close(x: Event, y: Event) {
    && x.at.Some? && y.at.Some?
    && (Distance(x, y) <= 1000 * x.uncertainty || Distance(x, y) <= 1000 * y.uncertainty || Distance(x, y) <= 60_000_000)
  }

  function Distance(x: Event, y: Event): int
    requires x.at.Some? && y.at.Some?
  {
    if x.at.value <= y.at.value then y.at.value - x.at.value else x.at.value - y.at.value
  }

  ghost predicate SomeClose(ls: seq<Event>, rs: seq<Event>) { exists x, y :: x in ls && y in rs && Close(x, y) }

  lemma OverlapsMeansClose(x: Event, y: Event)
    ensures Overlaps(x, y) <==> Close(x, y)
    ensures Close(x, y) ==> 1000 * GapMs(x, y) <= Distance(x, y) < 1000 * GapMs(x, y) + 1000
  {}

  /** At `i` and `j` lie two close events, `ms` whole milliseconds apart; no two close events are
      nearer by that measure, and none that come earlier are as near. */
  ghost predicate Nearest(ls: seq<Event>, rs: seq<Event>, i: int, j: int, ms: int) {
    && 0 <= i < |ls| && 0 <= j < |rs| && Close(ls[i], rs[j])
    && 1000 * ms <= Distance(ls[i], rs[j]) < 1000 * ms + 1000
    && forall x, y :: 0 <= x < |ls| && 0 <= y < |rs| && Close(ls[x], rs[y]) ==>
         && Distance(ls[x], rs[y]) >= 1000 * ms
         && (x < i || (x == i && y < j) ==> Distance(ls[x], rs[y]) >= 1000 * ms + 1000)
  }

  lemma Milliseconds(d: int, ms: int, e: int, es: int)
    requires 1000 * ms <= d < 1000 * ms + 1000 && 1000 * es <= e < 1000 * es + 1000
    ensures ms <= es <==> e >= 1000 * ms
    ensures ms < es <==> e >= 1000 * ms + 1000
  {}

  lemma BestIsNearest(ls: seq<Event>, rs: seq<Event>, i: nat, j: nat)
    requires i < |ls| && j < |rs| && ls[i].at.Some? && rs[j].at.Some?
    ensures IsBestOverlap(ls, rs, i, j) <==> Nearest(ls, rs, i, j, GapMs(ls[i], rs[j]))
  {
    var ms := GapMs(ls[i], rs[j]);
    OverlapsMeansClose(ls[i], rs[j]);
    forall x, y | 0 <= x < |ls| && 0 <= y < |rs|
      ensures Overlaps(ls[x], rs[y]) <==> Close(ls[x], rs[y])
      ensures Close(ls[x], rs[y]) && Close(ls[i], rs[j]) ==>
                && (ms <= GapMs(ls[x], rs[y]) <==> Distance(ls[x], rs[y]) >= 1000 * ms)
                && (ms < GapMs(ls[x], rs[y]) <==> Distance(ls[x], rs[y]) >= 1000 * ms + 1000)
    {
      OverlapsMeansClose(ls[x], rs[y]);
      if Close(ls[x], rs[y]) && Close(ls[i], rs[j]) {
        Milliseconds(Distance(ls[i], rs[j]), ms, Distance(ls[x], rs[y]), GapMs(ls[x], rs[y]));
      }
    }
  }

  /** An overlap names the first among the nearest close events, with their distance. */
  lemma OverlapIsNearest(ls: seq<Event>, rs: seq<Event>, o: Overlap)
    ensures IsOverlap(ls, rs, o) <==>
              exists i, j :: Nearest(ls, rs, i, j, o.gapMs) && o.left == ls[i].id && o.right == rs[j].id
  {
    if IsOverlap(ls, rs, o) {
      var i: nat, j: nat :| IsBestOverlap(ls, rs, i, j) && o == Overlap(ls[i].id, rs[j].id, GapMs(ls[i], rs[j]));
      BestIsNearest(ls, rs, i, j);
    }
    if i, j :| Nearest(ls, rs, i, j, o.gapMs) && o.left == ls[i].id && o.right == rs[j].id {
      OverlapsMeansClose(ls[i], rs[j]);
      assert GapMs(ls[i], rs[j]) == o.gapMs;
      BestIsNearest(ls, rs, i, j);
    }
  }

  /** What a search for an overlap has found. */
  ghost predicate Found(ls: seq<Event>, rs: seq<Event>, best: Option<Overlap>) {
    && (best.None? <==> !SomeClose(ls, rs))
    && (best.Some? ==>
          exists i, j :: Nearest(ls, rs, i, j, best.value.gapMs) && best.value.left == ls[i].id && best.value.right == rs[j].id)
  }

  lemma SearchFinds(ls: seq<Event>, rs: seq<Event>, best: Option<Overlap>)
    requires best.None? <==> forall x, y :: 0 <= x < |ls| && 0 <= y < |rs| ==> !Overlaps(ls[x], rs[y])
    requires best.Some? ==> IsOverlap(ls, rs, best.value)
    ensures Found(ls, rs, best)
  {
    if best.Some? {
      OverlapIsNearest(ls, rs, best.value);
      var i, j :| Nearest(ls, rs, i, j, best.value.gapMs);
      assert ls[i] in ls && rs[j] in rs;
    } else {
      forall x, y | x in ls && y in rs ensures !Close(x, y) {
        OverlapsMeansClose(x, y);
      }
    }
  }
}
