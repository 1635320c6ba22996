/** Throttling of failed sign-ins by address (backend/app/auth/security.py). */
module AuthThrottle {
  import opened AuthModel
  import opened Numbers
  import opened Options

  const IP_MAX_FAILURES := 10
  const WINDOW := 15 * MINUTE

  /** The stamps not older than `cutoff`. */
  function Recent(stamps: seq<int>, cutoff: int): seq<int> {
    if stamps == [] then []
    else
      var n := |stamps| - 1;
      Recent(stamps[..n], cutoff) + if stamps[n] >= cutoff then [stamps[n]] else []
  }

  function Pruned(stamps: seq<int>, now: int): seq<int> { Recent(stamps, now - WINDOW) }

  predicate Allowed(stamps: seq<int>, now: int) { |Pruned(stamps, now)| < IP_MAX_FAILURES }

  // ----- the in-memory table -------------------------------------------------------------

  class IpThrottle {
    var failures: map<string, seq<int>>

    constructor ()
      ensures failures == map[] && Bounded()
    {
      failures := map[];
    }

    function Stamps(ip: string): seq<int>
      reads this
    {
      if ip in failures then failures[ip] else []
    }

    /** No address has more entries than the limit. */
    ghost predicate Bounded()
      reads this
    {
      forall ip :: |Stamps(ip)| <= IP_MAX_FAILURES
    }

    /** No address means no throttling. */
    method RegisterIpFailure(ip: Option<string>, now: int)
      modifies this
      ensures failures == if ip.None? || ip.value == "" then old(failures)
                          else old(failures)[ip.value := Pruned(old(Stamps(ip.value)), now) + [now]]
    {
      if ip.None? || ip.value == "" {
        return;
      }
      var recent := Prune(Stamps(ip.value), now - WINDOW);
      failures := failures[ip.value := recent + [now]];
    }

    method AssertIpAllowed(ip: Option<string>, now: int) returns (allowed: bool)
      modifies this
      ensures ip.None? || ip.value == "" ==> allowed && failures == old(failures)
      ensures ip.Some? && ip.value != "" ==>
                && failures == old(failures)[ip.value := Pruned(old(Stamps(ip.value)), now)]
                && allowed == Allowed(old(Stamps(ip.value)), now)
    {
      if ip.None? || ip.value == "" {
        return true;
      }
      var recent := Prune(Stamps(ip.value), now - WINDOW);
      failures := failures[ip.value := recent];
      return |recent| < IP_MAX_FAILURES;
    }

    method ClearIpFailures(ip: Option<string>)
      modifies this
      ensures failures == if ip.Some? && ip.value != "" then old(failures) - {ip.value} else old(failures)
    {
      if ip.Some? && ip.value != "" && ip.value in failures {
        failures := failures - {ip.value};
      } else if ip.Some? {
        assert ip.value !in failures ==> failures - {ip.value} == failures;
      }
    }
  }

  method Prune(stamps: seq<int>, cutoff: int) returns (recent: seq<int>)
    ensures recent == Recent(stamps, cutoff)
  {
    recent := [];
    for i := 0 to |stamps|
      invariant recent == Recent(stamps[..i], cutoff)
    {
      assert stamps[..i + 1][..i] == stamps[..i];
      if stamps[i] >= cutoff {
        recent := recent + [stamps[i]];
      }
    }
    assert stamps[..|stamps|] == stamps;
  }

  // ----- one address over time -----------------------------------------------------------

  /** What happens to one address: its limit is asked for, a failure is recorded, or a sign-in
      succeeds. */
  datatype Event = Asked(at: int) | Failure(at: int) | Success(at: int)

  function Stored(stamps: seq<int>, e: Event): seq<int> {
    match e
    case Asked(at) => Pruned(stamps, at)
    case Failure(at) => Pruned(stamps, at) + [at]
    case Success(_) => []
  }

  /** The list kept in memory. */
  function StoredAfter(events: seq<Event>): seq<int> {
    if events == [] then [] else Stored(StoredAfter(events[..|events| - 1]), events[|events| - 1])
  }

  function Logged(log: seq<int>, e: Event): seq<int> {
    match e
    case Asked(_) => log
    case Failure(at) => log + [at]
    case Success(_) => []
  }

  /** All failures since the last success, nothing forgotten. */
  function LogAfter(events: seq<Event>): seq<int> {
    if events == [] then [] else Logged(LogAfter(events[..|events| - 1]), events[|events| - 1])
  }

  /** The clock never runs backwards. */
  ghost predicate Clocked(events: seq<Event>, now: int) {
    && (forall i, j :: 0 <= i < j < |events| ==> events[i].at <= events[j].at)
    && (forall i :: 0 <= i < |events| ==> events[i].at <= now)
  }

  lemma {:induction false} RecentAppend(stamps: seq<int>, x: int, cutoff: int)
    ensures Recent(stamps + [x], cutoff) == Recent(stamps, cutoff) + if x >= cutoff then [x] else []
  {
    assert (stamps + [x])[..|stamps|] == stamps;
  }

  /** Pruning twice is pruning at the later cutoff. */
  lemma {:induction false} RecentTwice(stamps: seq<int>, early: int, late: int)
    requires early <= late
    ensures Recent(Recent(stamps, early), late) == Recent(stamps, late)
  {
    if stamps != [] {
      var n := |stamps| - 1;
      RecentTwice(stamps[..n], early, late);
      RecentAppend(Recent(stamps[..n], early), stamps[n], late);
      assert Recent(stamps[..n], early) + [] == Recent(stamps[..n], early);
      assert Recent(stamps[..n], late) + [] == Recent(stamps[..n], late);
    }
  }

  /** One event keeps two lists equal, as seen through a window that ends at the event or later. */
  lemma EventRefines(stored: seq<int>, log: seq<int>, e: Event, late: int)
    requires e.at <= late && Pruned(stored, late) == Pruned(log, late)
    ensures Pruned(Stored(stored, e), late) == Pruned(Logged(log, e), late)
  {
    RecentTwice(stored, e.at - WINDOW, late - WINDOW);
    if e.Failure? {
      RecentAppend(Pruned(stored, e.at), e.at, late - WINDOW);
      RecentAppend(log, e.at, late - WINDOW);
    }
  }

  /** Seen through any window that ends now or later, the pruned list is the full log. */
  lemma {:induction false} StoredRefinesLog(events: seq<Event>, now: int, late: int)
    requires Clocked(events, now) && now <= late
    ensures Pruned(StoredAfter(events), late) == Pruned(LogAfter(events), late)
    decreases |events|
  {
    if events != [] {
      var before, e := events[..|events| - 1], events[|events| - 1];
      StoredRefinesLog(before, e.at, late);
      EventRefines(StoredAfter(before), LogAfter(before), e, late);
    }
  }

  /** How many stamps of the log lie in the last fifteen minutes. */
  function InWindow(log: seq<int>, now: int): nat {
    if log == [] then 0
    else
      var n := |log| - 1;
      InWindow(log[..n], now) + if now - log[n] <= 900_000_000 then 1 else 0
  }

  lemma {:induction false} WindowCounts(log: seq<int>, now: int)
    ensures InWindow(log, now) == |Pruned(log, now)|
  {
    if log != [] {
      WindowCounts(log[..|log| - 1], now);
    }
  }

  /** Forgetting old stamps never changes a decision: a sign-in is refused exactly when the
      address failed at least ten times in the last fifteen minutes since its last success. */
  lemma RefusedByFullLog(events: seq<Event>, now: int)
    requires Clocked(events, now)
    ensures !Allowed(StoredAfter(events), now) <==> InWindow(LogAfter(events), now) >= 10
  {
    StoredRefinesLog(events, now, now);
    WindowCounts(LogAfter(events), now);
  }

  /** One sign-in attempt: the limit is asked for at `gate`; if it allows, the attempt may fail
      or succeed at `at`, or end without touching the table (a locked or disabled account). */
  datatype Attempt = Attempt(gate: int, at: int, outcome: Outcome)
  datatype Outcome = Wrong | Right | Untouched

  function AttemptEvents(stamps: seq<int>, a: Attempt): seq<Event> {
    if !Allowed(stamps, a.gate) || a.outcome == Untouched then [Asked(a.gate)]
    else [Asked(a.gate), if a.outcome == Wrong then Failure(a.at) else Success(a.at)]
  }

  /** The list after one attempt. */
  function AfterAttempt(stamps: seq<int>, a: Attempt): seq<int> {
    var events := AttemptEvents(stamps, a);
    var asked := Stored(stamps, events[0]);
    if |events| == 1 then asked else Stored(asked, events[1])
  }

  /** The list after a sequence of attempts, one after the other. */
  function AfterAttempts(attempts: seq<Attempt>): seq<int> {
    if attempts == [] then []
    else AfterAttempt(AfterAttempts(attempts[..|attempts| - 1]), attempts[|attempts| - 1])
  }

  lemma {:induction false} RecentShrinks(stamps: seq<int>, cutoff: int)
    ensures |Recent(stamps, cutoff)| <= |stamps|
  {
    if stamps != [] {
      RecentShrinks(stamps[..|stamps| - 1], cutoff);
    }
  }

  lemma AttemptKeepsBound(stamps: seq<int>, a: Attempt)
    requires |stamps| <= IP_MAX_FAILURES
    ensures |AfterAttempt(stamps, a)| <= IP_MAX_FAILURES
  {
    RecentShrinks(stamps, a.gate - WINDOW);
    RecentShrinks(Pruned(stamps, a.gate), a.at - WINDOW);
  }

  /** Attempts made one after the other never leave more than ten stamps behind. */
  lemma {:induction false} AtMostTenStored(attempts: seq<Attempt>)
    ensures |AfterAttempts(attempts)| <= 10
  {
    if attempts != [] {
      AtMostTenStored(attempts[..|attempts| - 1]);
      AttemptKeepsBound(AfterAttempts(attempts[..|attempts| - 1]), attempts[|attempts| - 1]);
    }
  }

  // ----- attempts against the full log ---------------------------------------------------

  /** What a sequence of attempts does to the address, event by event. */
  function EventsOf(attempts: seq<Attempt>): seq<Event> {
    if attempts == [] then []
    else
      var before, a := attempts[..|attempts| - 1], attempts[|attempts| - 1];
      EventsOf(before) + AttemptEvents(AfterAttempts(before), a)
  }

  lemma StoredNext(events: seq<Event>, e: Event)
    ensures StoredAfter(events + [e]) == Stored(StoredAfter(events), e)
  {
    assert (events + [e])[..|events|] == events;
  }

  lemma {:induction false} StoredIsAttempts(attempts: seq<Attempt>)
    ensures StoredAfter(EventsOf(attempts)) == AfterAttempts(attempts)
  {
    if attempts != [] {
      var before, a := attempts[..|attempts| - 1], attempts[|attempts| - 1];
      StoredIsAttempts(before);
      var done, more := EventsOf(before), AttemptEvents(AfterAttempts(before), a);
      StoredNext(done, more[0]);
      if |more| == 2 {
        StoredNext(done + [more[0]], more[1]);
        assert done + more == (done + [more[0]]) + [more[1]];
      } else {
        assert more == [more[0]];
      }
    }
  }

  /** The clock never runs backwards, within an attempt and from one to the next. */
  ghost predicate AttemptsClocked(attempts: seq<Attempt>, now: int) {
    && (forall i :: 0 <= i < |attempts| ==> attempts[i].gate <= attempts[i].at <= now)
    && (forall i, j :: 0 <= i < j < |attempts| ==> attempts[i].at <= attempts[j].gate)
  }

  lemma ClockedNext(events: seq<Event>, e: Event, now: int)
    requires Clocked(events, e.at) && e.at <= now
    ensures Clocked(events + [e], now)
  {}

  lemma {:induction false} EventsClocked(attempts: seq<Attempt>, now: int)
    requires AttemptsClocked(attempts, now)
    ensures Clocked(EventsOf(attempts), now)
    decreases |attempts|
  {
    if attempts != [] {
      var before, a := attempts[..|attempts| - 1], attempts[|attempts| - 1];
      EventsClocked(before, a.gate);
      var done, more := EventsOf(before), AttemptEvents(AfterAttempts(before), a);
      if |more| == 2 {
        ClockedNext(done, more[0], a.at);
        ClockedNext(done + [more[0]], more[1], now);
        assert done + more == (done + [more[0]]) + [more[1]];
      } else {
        ClockedNext(done, more[0], now);
        assert more == [more[0]];
      }
    }
  }

  /** The throttle as it is meant: nothing is ever forgotten but by a success, and an attempt is
      refused when the log has ten failures in its window. */
  function Attempted(log: seq<int>, a: Attempt): seq<int> {
    if InWindow(log, a.gate) >= 10 || a.outcome == Untouched then log
    else if a.outcome == Wrong then log + [a.at]
    else []
  }

  function FullLog(attempts: seq<Attempt>): seq<int> {
    if attempts == [] then [] else Attempted(FullLog(attempts[..|attempts| - 1]), attempts[|attempts| - 1])
  }

  lemma LogNext(events: seq<Event>, e: Event)
    ensures LogAfter(events + [e]) == Logged(LogAfter(events), e)
  {
    assert (events + [e])[..|events|] == events;
  }

  lemma AttemptLogged(events: seq<Event>, stamps: seq<int>, a: Attempt)
    requires !Allowed(stamps, a.gate) <==> InWindow(LogAfter(events), a.gate) >= 10
    ensures LogAfter(events + AttemptEvents(stamps, a)) == Attempted(LogAfter(events), a)
  {
    var more := AttemptEvents(stamps, a);
    LogNext(events, more[0]);
    if |more| == 2 {
      LogNext(events + [more[0]], more[1]);
      assert events + more == (events + [more[0]]) + [more[1]];
    } else {
      assert more == [more[0]];
    }
  }

  lemma {:induction false} LogIsFull(attempts: seq<Attempt>, now: int)
    requires AttemptsClocked(attempts, now)
    ensures LogAfter(EventsOf(attempts)) == FullLog(attempts)
    decreases |attempts|, 0
  {
    if attempts != [] {
      var before, a := attempts[..|attempts| - 1], attempts[|attempts| - 1];
      LogIsFull(before, a.gate);
      RefusedInRun(before, a.gate);
      AttemptLogged(EventsOf(before), AfterAttempts(before), a);
    }
  }

  /** Over every run of sign-ins from one address, the pruned list decides like the full log: an
      attempt is refused exactly when the log has ten failures in the last fifteen minutes. */
  lemma {:induction false} RefusedInRun(attempts: seq<Attempt>, gate: int)
    requires AttemptsClocked(attempts, gate)
    ensures !Allowed(AfterAttempts(attempts), gate) <==> InWindow(FullLog(attempts), gate) >= 10
    decreases |attempts|, 1
  {
    LogIsFull(attempts, gate);
    StoredIsAttempts(attempts);
    EventsClocked(attempts, gate);
    RefusedByFullLog(EventsOf(attempts), gate);
  }
}
