/** The dispatch of one script as an actor beside the agents it wakes. An agent may answer as soon as its message is
    sent, so its statements interleave with the rest of the dispatch: the insertion of later results, the mark of its
    own result as running, and the failing of the targets that were not reached. */
module ScriptDispatch {
  import opened Common
  import opened Script
  import opened ScriptDb
  import opened ScriptProtocol

  // ---------------------------------------------------------------------------------------------
  // The dispatch as a program

  /** What run_script does, one step at a time, once the run row is there. */
  datatype Statement =
    | Insert(result: ResultId)
    | Send(result: ResultId)
    | Mark(result: ResultId)
    | Fail(result: ResultId)
    | CloseUnsent

  function Attempt(t: Target): seq<Statement> {
    if t.connected then [Insert(t.result), Send(t.result), Mark(t.result)] else [Insert(t.result)]
  }

  /** The loop over the targets. */
  function Attempts(targets: seq<Target>): seq<Statement> {
    if targets == [] then [] else Attempts(targets[..|targets| - 1]) + Attempt(targets[|targets| - 1])
  }

  /** The loop over the targets that were not reached. */
  function Failures(targets: seq<Target>): seq<Statement> {
    if targets == [] then []
    else
      var t := targets[|targets| - 1];
      Failures(targets[..|targets| - 1]) + if t.connected then [] else [Fail(t.result)]
  }

  function Program(targets: seq<Target>): seq<Statement> {
    Attempts(targets) + Failures(targets) +
    if targets != [] && ConnectedCount(targets) == 0 then [CloseUnsent] else []
  }

  /** The tables, the agents that have their message, and what the dispatch has still to do. */
  datatype World = World(system: System, todo: seq<Statement>)

  datatype Move = DispatchMove(at: Time) | AgentMove(agent: ResultId, at: Time)

  function MarkRunning(db: Db, r: ResultId, now: Time): Db {
    if r !in db.results then db
    else db.(results := db.results[r := db.results[r].(status := Running, startedAt := Some(now))])
  }

  /** A dispatch from its first statement, with the agents' messages and a schedule. */
  datatype Execution = Execution(
    db: Db,
    run: RunId,
    targets: seq<Target>,
    traces: map<ResultId, seq<Progress>>,
    moves: seq<Move>)
  {
    /** A new run; the connected targets are those whose agents take the message, and each will send its trace. */
    ghost predicate Valid() {
      && DistinctTargets(targets)
      && (forall r :: r in traces <==> exists t :: t in targets && t.connected && t.result == r)
      && (forall r :: r in traces ==> WellClosed(traces[r]))
      && (forall r :: r in db.results ==> db.results[r].runId != run && r !in Ids())
    }

    function Ids(): set<ResultId> {
      ResultIds(targets)
    }

    function Do(s: System, st: Statement, now: Time): System {
      match st
      case Insert(r) =>
        if r in s.db.results then s
        else s.(db := s.db.(results := s.db.results[r := ResultRow(run, Pending, None, None, None)]))
      case Send(r) => if r in traces then s.(agents := s.agents[r := Agent(traces[r], Ready, [])]) else s
      case Mark(r) => s.(db := MarkRunning(s.db, r, now))
      case Fail(r) =>
        if r !in s.db.results then s
        else s.(db := s.db.(results := s.db.results[r := Unreached(s.db.results[r], now)]))
      case CloseUnsent => s.(db := s.db.(runs := s.db.runs[run := RunRow(Failed, Some(now))]))
    }

    function Begin(): World {
      World(System(db.(runs := db.runs[run := RunRow(Running, None)]), map[]), Program(targets))
    }

    function Next(w: World, m: Move): World {
      match m
      case DispatchMove(at) => if w.todo == [] then w else World(Do(w.system, w.todo[0], at), w.todo[1..])
      case AgentMove(r, at) => if r in w.system.agents then World(Act(w.system, r, at), w.todo) else w
    }

    /** The world before move i. */
    function At(i: nat): World
      requires i <= |moves|
    {
      if i == 0 then Begin() else Next(At(i - 1), moves[i - 1])
    }

    // What move i is.

    predicate Executes(i: nat, st: Statement) {
      i < |moves| && moves[i].DispatchMove? && At(i).todo != [] && At(i).todo[0] == st
    }

    predicate Acts(i: nat, r: ResultId) {
      i < |moves| && moves[i].AgentMove? && moves[i].agent == r && r in At(i).system.agents
    }

    predicate Closes(i: nat, r: ResultId) {
      Acts(i, r) && At(i).system.agents[r].phase.Closing?
    }

    predicate Counts(i: nat, r: ResultId) {
      Acts(i, r) && At(i).system.agents[r].phase.Counting?
    }

    predicate Tallies(i: nat, r: ResultId) {
      Acts(i, r) && At(i).system.agents[r].phase.Tallying?
    }

    predicate ClosesRun(i: nat, r: ResultId) {
      Acts(i, r) && At(i).system.agents[r].phase.ClosingRun?
    }

    /** Result r has been closed or failed before move i, and not marked running since. */
    ghost predicate Ended(i: nat, r: ResultId) {
      exists j :: 0 <= j < i && (Closes(j, r) || Executes(j, Fail(r))) &&
        forall k :: j < k < i ==> !Executes(k, Mark(r))
    }

    // What the run should come to.

    /** The status a result ends with. */
    function Final(r: ResultId): Status {
      if r in traces then ClosingStatus(traces[r]) else Failed
    }

    /** Some result that has ended before move i has that status. */
    ghost predicate Saw(i: nat, status: Status) {
      exists r :: r in Ids() && Ended(i, r) && Final(r) == status
    }

    /** The status that the results ended before move i add up to. */
    ghost function Seen(i: nat): Status {
      if !Saw(i, Failed) then Done else if !Saw(i, Done) then Failed else Partial
    }

    /** The status that all results add up to. */
    ghost function Expected(): Status {
      if forall r :: r in Ids() ==> Final(r) != Failed then Done
      else if forall r :: r in Ids() ==> Final(r) != Done then Failed
      else Partial
    }

    /** The dispatch and every agent it woke are done. */
    ghost predicate Over() {
      && At(|moves|).todo == []
      && forall r :: r in traces ==> r in At(|moves|).system.agents && Finished(At(|moves|).system.agents[r])
    }

    /** Every result is closed and the run carries their aggregate. */
    ghost predicate RightlyClosed() {
      var db := At(|moves|).system.db;
      AllClosed(db, run) && run in db.runs && db.runs[run].status == Aggregate(db, run)
    }

    /** The last statement before move n that closes the run is move j, by agent r; it writes what r tallied at t. */
    ghost predicate Decides(n: nat, t: nat, j: nat, r: ResultId) {
      && t < j < n && Tallies(t, r) && ClosesRun(j, r)
      && (forall k :: t < k < j ==> !Acts(k, r))
      && (forall k, q :: j < k < n ==> !ClosesRun(k, q))
    }
  }

  // ---------------------------------------------------------------------------------------------
  // What the program is

  /** Only reached targets are sent and marked, only unreached ones are failed, a result is inserted before anything
      else is done to it, and nothing is done twice. */
  ghost predicate Sound(x: Execution, todo: seq<Statement>) {
    && (forall a :: 0 <= a < |todo| ==> StatementOk(x, todo[a]))
    && (forall a, b :: 0 <= a < b < |todo| ==> InOrder(todo[a], todo[b]))
  }

  predicate StatementOk(x: Execution, st: Statement) {
    match st
    case Insert(r) => r in x.Ids()
    case Send(r) => r in x.traces
    case Mark(r) => r in x.traces
    case Fail(r) => r in x.Ids() && r !in x.traces
    case CloseUnsent => x.traces == map[] && x.targets != []
  }

  predicate InOrder(first: Statement, second: Statement) {
    && first != second
    && (second.Insert? && !first.Insert? ==> !first.Fail? && !first.CloseUnsent? && first.result != second.result)
  }

  lemma SoundTail(x: Execution, todo: seq<Statement>)
    requires todo != [] && Sound(x, todo)
    ensures StatementOk(x, todo[0]) && Sound(x, todo[1..])
    ensures forall st :: st in todo[1..] ==> InOrder(todo[0], st)
    ensures forall st :: st in todo <==> st == todo[0] || st in todo[1..]
  {
    hide StatementOk, InOrder;
  }

  lemma SoundConcat(x: Execution, a: seq<Statement>, b: seq<Statement>)
    requires Sound(x, a) && Sound(x, b)
    requires AllInOrder(a, b)
    ensures Sound(x, a + b)
  {
    hide StatementOk, InOrder;
  }

  lemma ReachedTarget(x: Execution, t: Target)
    requires x.Valid() && t in x.targets
    ensures t.result in x.Ids() && (t.connected <==> t.result in x.traces)
  {
    if t.result in x.traces {
      var u :| u in x.targets && u.connected && u.result == t.result;
      assert u == t;
    }
  }

  /** st is a statement of the first loop about one of the results. */
  predicate IsAttempt(st: Statement, results: set<ResultId>) {
    (st.Insert? || st.Send? || st.Mark?) && st.result in results
  }

  predicate AllAttempts(todo: seq<Statement>, results: set<ResultId>) {
    forall st :: st in todo ==> IsAttempt(st, results)
  }

  predicate AllFailures(todo: seq<Statement>, results: set<ResultId>) {
    forall st :: st in todo ==> st.Fail? && st.result in results
  }

  predicate AllInOrder(a: seq<Statement>, b: seq<Statement>) {
    forall st, st' :: st in a && st' in b ==> InOrder(st, st')
  }

  lemma AttemptSound(x: Execution, t: Target)
    requires x.Valid() && t in x.targets
    ensures Sound(x, Attempt(t)) && AllAttempts(Attempt(t), {t.result})
    ensures Insert(t.result) in Attempt(t)
    ensures t.connected ==> Send(t.result) in Attempt(t) && Mark(t.result) in Attempt(t)
  {
    ReachedTarget(x, t);
  }

  lemma AttemptsSnoc(targets: seq<Target>, n: nat)
    requires n < |targets|
    ensures Attempts(targets[..n + 1]) == Attempts(targets[..n]) + Attempt(targets[n])
    ensures Failures(targets[..n + 1]) ==
            Failures(targets[..n]) + if targets[n].connected then [] else [Fail(targets[n].result)]
  {
    assert targets[..n + 1][..n] == targets[..n];
  }

  lemma AttemptsInOrder(results: set<ResultId>, r: ResultId, a: seq<Statement>, b: seq<Statement>)
    requires r !in results && AllAttempts(a, results) && AllAttempts(b, {r})
    ensures AllInOrder(a, b) && AllAttempts(a + b, results + {r})
  {
  }

  lemma {:induction false} AttemptsSound(x: Execution, n: nat)
    requires x.Valid() && n <= |x.targets|
    ensures Sound(x, Attempts(x.targets[..n]))
    ensures AllAttempts(Attempts(x.targets[..n]), ResultIds(x.targets[..n]))
  {
    if n > 0 {
      hide *;
      AttemptsSound(x, n - 1);
      NewId(x, n - 1);
      AttemptSound(x, x.targets[n - 1]);
      AttemptsSnoc(x.targets, n - 1);
      var init, last := Attempts(x.targets[..n - 1]), Attempt(x.targets[n - 1]);
      AttemptsInOrder(ResultIds(x.targets[..n - 1]), x.targets[n - 1].result, init, last);
      SoundConcat(x, init, last);
    }
  }

  lemma {:induction false} EachIsTried(targets: seq<Target>, n: nat, i: nat)
    requires i < n <= |targets|
    ensures forall st :: st in Attempt(targets[i]) ==> st in Attempts(targets[..n])
    ensures !targets[i].connected ==> Fail(targets[i].result) in Failures(targets[..n])
  {
    AttemptsSnoc(targets, n - 1);
    hide *;
    if i < n - 1 {
      EachIsTried(targets, n - 1, i);
    }
  }

  lemma NewId(x: Execution, n: nat)
    requires x.Valid() && n < |x.targets|
    ensures ResultIds(x.targets[..n + 1]) == ResultIds(x.targets[..n]) + {x.targets[n].result}
    ensures x.targets[n].result !in ResultIds(x.targets[..n]) && x.targets[n] in x.targets
  {
    NewTarget(x.targets, n);
  }

  lemma {:induction false} FailuresSound(x: Execution, n: nat)
    requires x.Valid() && n <= |x.targets|
    ensures Sound(x, Failures(x.targets[..n]))
    ensures AllFailures(Failures(x.targets[..n]), ResultIds(x.targets[..n]))
  {
    if n > 0 {
      hide *;
      FailuresSound(x, n - 1);
      NewId(x, n - 1);
      AttemptsSnoc(x.targets, n - 1);
      FailureSound(x, x.targets[n - 1]);
      var init := Failures(x.targets[..n - 1]);
      var last := if x.targets[n - 1].connected then [] else [Fail(x.targets[n - 1].result)];
      FailuresInOrder(ResultIds(x.targets[..n - 1]), x.targets[n - 1].result, init, last);
      SoundConcat(x, init, last);
    } else {
      assert x.targets[..n] == [];
    }
  }

  lemma FailureSound(x: Execution, t: Target)
    requires x.Valid() && t in x.targets
    ensures Sound(x, []) && (!t.connected ==> Sound(x, [Fail(t.result)]))
  {
    ReachedTarget(x, t);
  }

  lemma FailuresInOrder(results: set<ResultId>, r: ResultId, a: seq<Statement>, b: seq<Statement>)
    requires r !in results && AllFailures(a, results) && (b == [] || b == [Fail(r)])
    ensures AllInOrder(a, b) && AllFailures(a + b, results + {r})
  {
  }

  /** Every result has its statements. */
  lemma LoopsHave(x: Execution, r: ResultId)
    requires x.Valid() && r in x.Ids()
    ensures Insert(r) in Attempts(x.targets)
    ensures r in x.traces ==> Send(r) in Attempts(x.targets) && Mark(r) in Attempts(x.targets)
    ensures r !in x.traces ==> Fail(r) in Failures(x.targets)
  {
    var n := |x.targets|;
    var i :| 0 <= i < n && x.targets[i].result == r;
    ReachedTarget(x, x.targets[i]);
    EachIsTried(x.targets, n, i);
    AttemptSound(x, x.targets[i]);
    assert x.targets[..n] == x.targets;
  }

  lemma LoopsSound(x: Execution)
    requires x.Valid()
    ensures Sound(x, Attempts(x.targets) + Failures(x.targets))
    ensures forall st :: st in Attempts(x.targets) + Failures(x.targets) ==> !st.CloseUnsent?
  {
    var n := |x.targets|;
    AttemptsSound(x, n);
    FailuresSound(x, n);
    assert x.targets[..n] == x.targets;
    hide Attempts, Failures, Execution.Valid, Execution.Ids, Sound, ResultIds;
    SoundConcat(x, Attempts(x.targets), Failures(x.targets));
  }

  lemma ReachedIds(x: Execution)
    requires x.Valid()
    ensures x.traces.Keys <= x.Ids()
  {
    forall r | r in x.traces ensures r in x.Ids() {
      var t :| t in x.targets && t.connected && t.result == r;
    }
  }

  lemma ProgramSound(x: Execution)
    requires x.Valid()
    ensures var todo := Program(x.targets);
      && Sound(x, todo)
      && (forall r :: r in x.Ids() ==> Insert(r) in todo)
      && (forall r :: r in x.traces ==> Send(r) in todo && Mark(r) in todo)
      && (forall r :: r in x.Ids() && r !in x.traces ==> Fail(r) in todo)
      && (x.targets != [] && x.traces == map[] ==> CloseUnsent in todo)
  {
    LoopsSound(x);
    ConnectedCountZero(x.targets);
    NoneReached(x);
    ReachedIds(x);
    var last := if x.targets != [] && ConnectedCount(x.targets) == 0 then [CloseUnsent] else [];
    assert Sound(x, last);
    hide Attempts, Failures, Execution.Valid, Execution.Ids, Sound;
    SoundConcat(x, Attempts(x.targets) + Failures(x.targets), last);
    forall r | r in x.Ids()
      ensures Insert(r) in Attempts(x.targets)
      ensures r in x.traces ==> Send(r) in Attempts(x.targets) && Mark(r) in Attempts(x.targets)
      ensures r !in x.traces ==> Fail(r) in Failures(x.targets)
    {
      LoopsHave(x, r);
    }
  }

  lemma EmptyIfNone(traces: map<ResultId, seq<Progress>>)
    ensures traces == map[] <==> forall r :: r !in traces
  {
    if forall r :: r !in traces {
      assert traces.Keys == {};
    }
  }

  lemma NoneReached(x: Execution)
    requires x.Valid()
    ensures x.traces == map[] <==> forall t :: t in x.targets ==> !t.connected
  {
    if t :| t in x.targets && t.connected {
      assert t.result in x.traces;
    }
    EmptyIfNone(x.traces);
    if r :| r in x.traces {
      var t :| t in x.targets && t.connected && t.result == r;
    }
  }
}
