/** The workflow of one case (backend/app/collaboration/workflow.py and service.py:801-839). */
module CaseWorkflow {
  import opened Options

  datatype Stage = Open | EvidenceCollection | Analysis | Review | Reporting | Closed | Archived

  const ORDER: seq<Stage> := [Open, EvidenceCollection, Analysis, Review, Reporting, Closed, Archived]

  function ParseStage(s: string): Option<Stage> {
    if s == "open" then Some(Open)
    else if s == "evidence_collection" then Some(EvidenceCollection)
    else if s == "analysis" then Some(Analysis)
    else if s == "review" then Some(Review)
    else if s == "reporting" then Some(Reporting)
    else if s == "closed" then Some(Closed)
    else if s == "archived" then Some(Archived)
    else None
  }

  /** The transition table. */
  function AllowedTransitions(current: Stage): set<Stage> {
    match current
    case Open => {EvidenceCollection}
    case EvidenceCollection => {Analysis, Open}
    case Analysis => {Review, EvidenceCollection}
    case Review => {Reporting, Analysis}
    case Reporting => {Closed, Review}
    case Closed => {Archived, Reporting}
    case Archived => {}
  }

  /** Position of a stage in the order. */
  function Index(stage: Stage): (i: nat)
    ensures i < |ORDER| && ORDER[i] == stage
  {
    match stage
    case Open => 0
    case EvidenceCollection => 1
    case Analysis => 2
    case Review => 3
    case Reporting => 4
    case Closed => 5
    case Archived => 6
  }

  /** A logged change of stage. */
  datatype Change = Change(from: Stage, to: Stage)

  datatype Row = Row(stage: Stage, version: nat)

  datatype Outcome = Moved(stage: Stage) | Refused

  /** The row of a case, once it has one, and the log of its changes. */
  datatype State = State(row: Option<Row>, log: seq<Change>)

  const START := State(None, [])

  function RowOf(s: State): Row { if s.row.Some? then s.row.value else Row(Open, 1) }

  /** Reading a workflow creates its row. */
  function Read(s: State): State { s.(row := Some(RowOf(s))) }

  /** Asking for a stage, which is missing when it could not be read. */
  function Transition(s: State, target: Option<Stage>): (State, Outcome) {
    var row := RowOf(s);
    if target.None? || target.value !in AllowedTransitions(row.stage) then (s, Refused)
    else (State(Some(Row(target.value, row.version + 1)), s.log + [Change(row.stage, target.value)]), Moved(target.value))
  }

  class Workflow {
    var row: Option<Row>
    var log: seq<Change>

    function View(): State
      reads this
    {
      State(row, log)
    }

    constructor ()
      ensures View() == START
    {
      row, log := None, [];
    }

    method GetWorkflow() returns (r: Row)
      modifies this
      ensures View() == Read(old(View())) && row == Some(r)
    {
      if row.None? {
        row := Some(Row(Open, 1));
      }
      return row.value;
    }

    /** A refused transition leaves nothing behind: the row it may have added is rolled back. */
    method TransitionWorkflow(stage: string) returns (r: Outcome)
      modifies this
      ensures (View(), r) == Transition(old(View()), ParseStage(stage))
    {
      var current := if row.Some? then row.value else Row(Open, 1);
      var target := ParseStage(stage);
      if target.None? || target.value !in AllowedTransitions(current.stage) {
        return Refused;
      }
      var previous := current.stage;
      row := Some(Row(target.value, current.version + 1));
      log := log + [Change(previous, target.value)];
      return Moved(target.value);
    }
  }

  // ----- runs ----------------------------------------------------------------------------

  datatype Request = ReadRequest | MoveRequest(target: Option<Stage>)

  function Step(s: State, q: Request): State {
    match q
    case ReadRequest => Read(s)
    case MoveRequest(target) => Transition(s, target).0
  }

  function After(requests: seq<Request>): State {
    if requests == [] then START else Step(After(requests[..|requests| - 1]), requests[|requests| - 1])
  }

  /** Every move goes one step along the order, and none starts from the archive. */
  lemma MovesOneStep(current: Stage, target: Stage)
    ensures target in AllowedTransitions(current) <==>
              current != Archived && (Index(target) == Index(current) + 1 || Index(target) + 1 == Index(current))
  {}

  /** Where a log leads, starting from the first stage. */
  function Replay(log: seq<Change>): Stage { if log == [] then Open else log[|log| - 1].to }

  /** Every entry starts where the one before it ended, and moves one step. */
  ghost predicate Chained(log: seq<Change>) {
    forall i :: 0 <= i < |log| ==>
      log[i].from == Replay(log[..i]) && log[i].to in AllowedTransitions(log[i].from)
  }

  ghost predicate Tracked(s: State) {
    && Chained(s.log) && RowOf(s).stage == Replay(s.log) && RowOf(s).version == |s.log| + 1
    && Index(RowOf(s).stage) <= RowOf(s).version - 1
    && Index(RowOf(s).stage) % 2 == (RowOf(s).version - 1) % 2
  }

  lemma ReplayMore(log: seq<Change>, c: Change)
    ensures Replay(log + [c]) == c.to
  {}

  /** Position and number of moves of a tracked state. */
  predicate InStep(stage: Stage, n: nat) { Index(stage) <= n && Index(stage) % 2 == n % 2 }

  lemma MoveInStep(current: Stage, target: Stage, n: nat)
    requires InStep(current, n) && target in AllowedTransitions(current)
    ensures InStep(target, n + 1)
  {
    MovesOneStep(current, target);
    Parity(Index(current), Index(target), n);
  }

  lemma TransitionTracked(s: State, target: Stage)
    requires Tracked(s) && target in AllowedTransitions(RowOf(s).stage)
    ensures Tracked(Transition(s, Some(target)).0)
  {
    var c := Change(RowOf(s).stage, target);
    MoveInStep(c.from, target, |s.log|);
    ChainedMore(s.log, c);
    ReplayMore(s.log, c);
  }

  lemma Parity(i: nat, j: nat, n: nat)
    requires i <= n && i % 2 == n % 2 && (j == i + 1 || j + 1 == i)
    ensures j <= n + 1 && j % 2 == (n + 1) % 2
  {}

  /** The log replays to the current stage, the version counts its entries, and the stage's
      position is at most that number and of the same parity. */
  lemma {:induction false} LogReplays(requests: seq<Request>)
    ensures Tracked(After(requests))
  {
    if requests != [] {
      var before, q := After(requests[..|requests| - 1]), requests[|requests| - 1];
      LogReplays(requests[..|requests| - 1]);
      if q.MoveRequest? && q.target.Some? && q.target.value in AllowedTransitions(RowOf(before).stage) {
        TransitionTracked(before, q.target.value);
      }
    }
  }

  lemma ChainedMore(log: seq<Change>, c: Change)
    requires Chained(log) && c.from == Replay(log) && c.to in AllowedTransitions(c.from)
    ensures Chained(log + [c])
  {
    var longer := log + [c];
    forall i | 0 <= i < |longer| ensures longer[i].from == Replay(longer[..i]) && longer[i].to in AllowedTransitions(longer[i].from) {
      assert longer[..i] == log[..i];
      assert i == |log| ==> log[..i] == log;
    }
  }

  ghost predicate Visited(log: seq<Change>, stage: Stage) {
    stage == Open || exists i :: 0 <= i < |log| && log[i].to == stage
  }

  /** A chained log has visited every stage up to the one it leads to, and has at least as many
      entries as that stage's position. */
  lemma {:induction false} AllVisited(log: seq<Change>, stage: Stage)
    requires Chained(log) && Index(stage) <= Index(Replay(log))
    ensures Visited(log, stage) && |log| >= Index(stage)
    decreases |log|
  {
    if log != [] {
      var n := |log| - 1;
      var shorter := log[..n];
      forall i | 0 <= i < n ensures shorter[i].from == Replay(shorter[..i]) && shorter[i].to in AllowedTransitions(shorter[i].from) {
        assert shorter[..i] == log[..i];
      }
      MovesOneStep(log[n].from, log[n].to);
      if stage != log[n].to {
        AllVisited(shorter, stage);
        assert forall i :: 0 <= i < n ==> shorter[i] == log[i];
      } else if Index(stage) > 0 {
        var below := ORDER[Index(stage) - 1];
        if Index(Replay(shorter)) < Index(stage) {
          AllVisited(shorter, below);
        } else {
          AllVisited(shorter, stage);
        }
      }
    }
  }

  /** A case that reached the archive went through every stage, in at least six moves, and moves
      no more. */
  lemma ArchiveIsFinal(requests: seq<Request>, more: seq<Request>)
    requires RowOf(After(requests)).stage == Archived
    ensures forall stage: Stage :: Visited(After(requests).log, stage)
    ensures |After(requests).log| >= 6
    ensures After(requests + more).log == After(requests).log && RowOf(After(requests + more)) == RowOf(After(requests))
  {
    LogReplays(requests);
    forall stage: Stage ensures Visited(After(requests).log, stage) {
      AllVisited(After(requests).log, stage);
    }
    AllVisited(After(requests).log, Archived);
    StaysArchived(requests, more);
  }

  lemma {:induction false} StaysArchived(requests: seq<Request>, more: seq<Request>)
    requires RowOf(After(requests)).stage == Archived
    ensures After(requests + more).log == After(requests).log && RowOf(After(requests + more)) == RowOf(After(requests))
    decreases |more|
  {
    if more == [] {
      assert requests + more == requests;
    } else {
      var n := |more| - 1;
      StaysArchived(requests, more[..n]);
      assert (requests + more)[..|requests + more| - 1] == requests + more[..n];
    }
  }

  /** Nothing more holds of a stage and its version than the bound and the parity: every stage is
      reached with every number of moves that satisfies both. */
  lemma Reachable(stage: Stage, moves: nat) returns (requests: seq<Request>)
    requires Index(stage) <= moves && Index(stage) % 2 == moves % 2
    ensures RowOf(After(requests)) == Row(stage, moves + 1)
    decreases moves
  {
    if moves == 0 {
      requests := [];
    } else {
      var from := if stage == Open then EvidenceCollection else ORDER[Index(stage) - 1];
      var before := Reachable(from, moves - 1);
      requests := before + [MoveRequest(Some(stage))];
      assert requests[..|requests| - 1] == before;
      MovesOneStep(from, stage);
    }
  }

  function StageName(stage: Stage): string {
    match stage
    case Open => "open"
    case EvidenceCollection => "evidence_collection"
    case Analysis => "analysis"
    case Review => "review"
    case Reporting => "reporting"
    case Closed => "closed"
    case Archived => "archived"
  }

  /** A stage is read from exactly its own name. */
  lemma StageRead(s: string, stage: Stage)
    ensures ParseStage(s) == Some(stage) <==> s == StageName(stage)
  {
    assert "open"[0] == 'o' && "evidence_collection"[0] == 'e' && "analysis"[1] == 'n' && "review"[2] == 'v'
           && "reporting"[2] == 'p' && "closed"[0] == 'c' && "archived"[1] == 'r';
  }
}
