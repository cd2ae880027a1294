/** Runs of the dispatch in which agents answer too early, each from the first statement of a new run. */
module ScriptRaces {
  import opened Common
  import opened Script
  import opened ScriptDb
  import opened ScriptProtocol
  import opened ScriptDispatch
  import opened ScriptSchedules
  import opened ScriptClosing

  // ---------------------------------------------------------------------------------------------
  // Following a run by hand

  /** What matters of one result: its row's status and its agent's messages and place, where there are any. */
  datatype Look = Look(row: Option<Status>, agent: Option<(seq<Progress>, Phase)>)

  function LookAt(w: World, r: ResultId): Look {
    Look(if r in w.system.db.results then Some(w.system.db.results[r].status) else None,
         if r in w.system.agents then Some((w.system.agents[r].todo, w.system.agents[r].phase)) else None)
  }

  /** What is left of the dispatch, and the status of the run row. */
  predicate Stands(w: World, todo: seq<Statement>, run: RunId, status: Status) {
    w.todo == todo && run in w.system.db.runs && w.system.db.runs[run].status == status
  }

  /** A dispatch statement about r changes what its result looks like. */
  function LookAfter(look: Look, st: Statement, trace: seq<Progress>): Look {
    match st
    case Insert(_) => look.(row := Some(Pending))
    case Send(_) => look.(agent := Some((trace, Ready)))
    case Mark(_) => look.(row := Some(Running))
    case Fail(_) => look.(row := Some(Failed))
    case CloseUnsent => look
  }

  lemma DispatchMoves(x: Execution, i: nat, st: Statement, rest: seq<Statement>, status: Status)
    requires x.Valid() && i < |x.moves| && x.moves[i].DispatchMove? && !st.CloseUnsent?
    requires Stands(x.At(i), [st] + rest, x.run, status)
    ensures Stands(x.At(i + 1), rest, x.run, status)
    ensures forall q :: q != st.result ==> LookAt(x.At(i + 1), q) == LookAt(x.At(i), q)
    ensures LookAt(x.At(i + 1), st.result) ==
            LookAfter(LookAt(x.At(i), st.result), st, if st.result in x.traces then x.traces[st.result] else [])
  {
    AtKept(x, i);
    var w := x.At(i);
    assert w.todo[0] == st && w.todo[1..] == rest;
    if !st.Insert? {
      AlreadyInserted(x, w);
    } else {
      InsertedOnce(x, i, st.result);
    }
    SoundTail(x, w.todo);
    hide Execution.Valid, Execution.Ids, Sound, InStep, Rows, AgentsFollow;
  }

  /** A result whose insertion is still to come has no row. */
  lemma {:induction false} InsertedOnce(x: Execution, i: nat, r: ResultId)
    requires x.Valid() && i <= |x.moves| && Insert(r) in x.At(i).todo
    ensures r !in x.At(i).system.db.results
  {
    hide Kept, Act, Execution.Valid, Program;
    if i == 0 {
      InsertsNew(x, r);
    } else {
      AtKept(x, i - 1);
      TodoShrinks(x, i - 1, i, Insert(r));
      InsertedOnce(x, i - 1, r);
      NotInsertedYet(x, i - 1, r);
    }
  }

  lemma InsertsNew(x: Execution, r: ResultId)
    requires x.Valid() && Insert(r) in x.At(0).todo
    ensures r !in x.At(0).system.db.results
  {
    ProgramSound(x);
    assert StatementOk(x, Insert(r));
  }

  lemma NotInsertedYet(x: Execution, i: nat, r: ResultId)
    requires i < |x.moves| && Kept(x, x.At(i)) && r !in x.At(i).system.db.results && Insert(r) in x.At(i + 1).todo
    ensures r !in x.At(i + 1).system.db.results
  {
    var w := x.At(i);
    match x.moves[i]
    case DispatchMove(at) =>
      if w.todo != [] {
        SoundTail(x, w.todo);
        assert InOrder(w.todo[0], Insert(r));
        hide Sound, InStep, Rows, AgentsFollow;
      }
    case AgentMove(q, at) =>
      if q in w.system.agents {
        ActTouchesOne(w.system, q, at);
        hide Act, Kept;
      }
  }

  /** What an agent's statement does to its own result; tallied is the aggregate it sees when it tallies. */
  function LookActed(look: Look, allClosed: bool, tallied: Status): Look
    requires look.agent.Some?
  {
    var (todo, phase) := look.agent.value;
    match phase
    case Ready =>
      if todo == [] then look
      else look.(agent := Some((todo[1..], if todo[0].allDone then Closing(FinalStatus(todo[0])) else Ready)))
    case Closing(status) => Look(Some(status), Some((todo, Counting)))
    case Counting => look.(agent := Some((todo, if allClosed then Tallying else Ready)))
    case Tallying => look.(agent := Some((todo, ClosingRun(tallied))))
    case ClosingRun(_) => look.(agent := Some((todo, Ready)))
  }

  lemma AgentMoves(x: Execution, i: nat, r: ResultId, todo: seq<Statement>, status: Status)
    requires x.Valid() && i < |x.moves| && x.moves[i].AgentMove? && x.moves[i].agent == r
    requires Stands(x.At(i), todo, x.run, status) && LookAt(x.At(i), r).agent.Some?
    ensures var look, db := LookAt(x.At(i), r), x.At(i).system.db;
      && LookAt(x.At(i + 1), r) == LookActed(look, AllClosed(db, x.run), Aggregate(db, x.run))
      && Stands(x.At(i + 1), todo, x.run,
                if look.agent.value.1.ClosingRun? then look.agent.value.1.run else status)
    ensures forall q :: q != r ==> LookAt(x.At(i + 1), q) == LookAt(x.At(i), q)
  {
    var w := x.At(i);
    AgentHasRow(x, i, r);
    CountTells(x, i, r);
    TallyIsAggregate(w.system.db, r);
    ActTouchesOne(w.system, r, x.moves[i].at);
    AgentWritesRun(x, w.system, r, x.moves[i].at);
    hide Execution.Valid, Execution.Ids, CountPending, CountOutcomes, AllClosed, Aggregate, AgentOk, RunStatus;
  }

  predicate RowAtRest(look: Look) {
    look.row == None || look.row == Some(Done) || look.row == Some(Failed)
  }

  lemma ClosedByLooks(x: Execution, i: nat)
    requires x.Valid() && i <= |x.moves|
    ensures AllClosed(x.At(i).system.db, x.run) <==> forall r :: r in x.Ids() ==> RowAtRest(LookAt(x.At(i), r))
  {
    AtKept(x, i);
    SameRun(x, x.At(i).system.db, x.At(i).system);
    hide Execution.At, Execution.Valid, Execution.Ids;
  }

  lemma AggregateByLooks(x: Execution, i: nat)
    requires x.Valid() && i <= |x.moves|
    ensures Aggregate(x.At(i).system.db, x.run) ==
            if forall r :: r in x.Ids() ==> LookAt(x.At(i), r).row != Some(Failed) then Done
            else if forall r :: r in x.Ids() ==> LookAt(x.At(i), r).row != Some(Done) then Failed
            else Partial
  {
    AtKept(x, i);
    SameRun(x, x.At(i).system.db, x.At(i).system);
    hide Execution.At, Execution.Valid, Execution.Ids;
    if r :| r in x.Ids() && LookAt(x.At(i), r).row == Some(Failed) {
      assert x.At(i).system.db.results[r].status == Failed;
    }
    if r :| r in x.Ids() && LookAt(x.At(i), r).row == Some(Done) {
      assert x.At(i).system.db.results[r].status == Done;
    }
  }

  lemma {:induction false} TwoLoops(targets: seq<Target>)
    requires |targets| == 2 && targets[0].connected
    ensures Attempts(targets) == Attempt(targets[0]) + Attempt(targets[1])
    ensures Failures(targets) == if targets[1].connected then [] else [Fail(targets[1].result)]
  {
    AttemptsSnoc(targets, 0);
    AttemptsSnoc(targets, 1);
    assert targets[..2] == targets && targets[..0] == [];
    assert Attempts([]) == [] && Failures([]) == [];
  }

  lemma {:induction false} TwoTargets(targets: seq<Target>)
    requires |targets| == 2 && targets[0].connected
    ensures Program(targets) == Attempt(targets[0]) +
            (Attempt(targets[1]) + if targets[1].connected then [] else [Fail(targets[1].result)])
  {
    TwoLoops(targets);
    ConnectedCountZero(targets);
    assert targets[0] in targets;
    hide Attempts, Failures, ConnectedCount, Attempt;
    AppendThree(Attempt(targets[0]), Attempt(targets[1]), Failures(targets));
  }

  lemma AppendThree<T>(a: seq<T>, b: seq<T>, c: seq<T>)
    ensures a + b + c + [] == a + (b + c)
  {
  }

  lemma {:induction false} TwoIds(targets: seq<Target>)
    requires |targets| == 2
    ensures ResultIds(targets) == {targets[0].result, targets[1].result}
  {
    assert targets[0] in targets && targets[1] in targets;
  }

  lemma Starts(x: Execution, r: ResultId)
    requires x.Valid() && r in x.Ids()
    ensures Stands(x.At(0), Program(x.targets), x.run, Running) && LookAt(x.At(0), r) == Look(None, None)
  {
    hide Program;
  }

  // ---------------------------------------------------------------------------------------------
  // Stretches of a run with two targets

  /** What is left of the dispatch, the status of the run row, and what the two results look like, before move i. */
  ghost predicate Scene(x: Execution, i: nat, todo: seq<Statement>, status: Status,
                        r: ResultId, look: Look, q: ResultId, other: Look) {
    && x.Valid() && i <= |x.moves| && r != q && x.Ids() == {r, q}
    && Stands(x.At(i), todo, x.run, status) && LookAt(x.At(i), r) == look && LookAt(x.At(i), q) == other
  }

  predicate ByDispatch(x: Execution, i: nat, n: nat) {
    i + n <= |x.moves| && forall k :: i <= k < i + n ==> x.moves[k].DispatchMove?
  }

  predicate ByAgent(x: Execution, i: nat, n: nat, r: ResultId) {
    i + n <= |x.moves| && forall k :: i <= k < i + n ==> x.moves[k].AgentMove? && x.moves[k].agent == r
  }

  lemma Swap(x: Execution, i: nat, todo: seq<Statement>, status: Status,
             r: ResultId, look: Look, q: ResultId, other: Look)
    requires Scene(x, i, todo, status, r, look, q, other)
    ensures Scene(x, i, todo, status, q, other, r, look)
  {
    hide Execution.At, Execution.Valid, Execution.Ids, Stands, LookAt;
  }

  lemma Opening(x: Execution, t: Target, u: Target)
    requires x.Valid() && x.targets == [t, u] && t.connected
    ensures Scene(x, 0, Program(x.targets), Running, t.result, Look(None, None), u.result, Look(None, None))
    ensures Program(x.targets) ==
            if u.connected then [Insert(t.result), Send(t.result), Mark(t.result)] +
                                [Insert(u.result), Send(u.result), Mark(u.result)]
            else [Insert(t.result), Send(t.result), Mark(t.result)] + [Insert(u.result), Fail(u.result)]
  {
    assert x.targets[0].result != x.targets[1].result;
    TwoTargets(x.targets);
    TwoIds(x.targets);
    Starts(x, t.result);
    Starts(x, u.result);
    hide Program, Execution.At;
  }

  /** The dispatch inserts and sends r. */
  lemma Sends(x: Execution, i: nat, rest: seq<Statement>, status: Status, r: ResultId, q: ResultId, other: Look)
    requires Scene(x, i, [Insert(r), Send(r), Mark(r)] + rest, status, r, Look(None, None), q, other)
    requires ByDispatch(x, i, 2) && r in x.traces
    ensures Scene(x, i + 2, [Mark(r)] + rest, status, r, Look(Some(Pending), Some((x.traces[r], Ready))), q, other)
  {
    hide Execution.At, Execution.Next, Execution.Valid, LookAt, Stands, AllClosed, Aggregate, Execution.Ids;
    hide FinalStatus, IsTerminal;
    assert [Insert(r), Send(r), Mark(r)] + rest == [Insert(r)] + ([Send(r), Mark(r)] + rest);
    DispatchMoves(x, i, Insert(r), [Send(r), Mark(r)] + rest, status);
    assert [Send(r), Mark(r)] + rest == [Send(r)] + ([Mark(r)] + rest);
    DispatchMoves(x, i + 1, Send(r), [Mark(r)] + rest, status);
  }

  /** The dispatch marks r. */
  lemma Marks(x: Execution, i: nat, rest: seq<Statement>, status: Status, r: ResultId, look: Look,
              q: ResultId, other: Look)
    requires Scene(x, i, [Mark(r)] + rest, status, r, look, q, other) && ByDispatch(x, i, 1)
    ensures Scene(x, i + 1, rest, status, r, look.(row := Some(Running)), q, other)
  {
    hide Execution.At, Execution.Next, Execution.Valid, LookAt, Stands, AllClosed, Aggregate, Execution.Ids;
    hide FinalStatus, IsTerminal;
    DispatchMoves(x, i, Mark(r), rest, status);
  }

  lemma Wakes(x: Execution, i: nat, rest: seq<Statement>, status: Status, r: ResultId, q: ResultId, other: Look)
    requires Scene(x, i, [Insert(r), Send(r), Mark(r)] + rest, status, r, Look(None, None), q, other)
    requires ByDispatch(x, i, 3) && r in x.traces
    ensures Scene(x, i + 3, rest, status, r, Look(Some(Running), Some((x.traces[r], Ready))), q, other)
  {
    hide Scene;
    Sends(x, i, rest, status, r, q, other);
    Marks(x, i + 2, rest, status, r, Look(Some(Pending), Some((x.traces[r], Ready))), q, other);
  }

  /** The dispatch executes one statement about q. */
  lemma Dispatches(x: Execution, i: nat, st: Statement, rest: seq<Statement>, status: Status,
                   r: ResultId, look: Look, q: ResultId, other: Look)
    requires Scene(x, i, [st] + rest, status, r, look, q, other)
    requires ByDispatch(x, i, 1) && (st == Insert(q) || st == Fail(q))
    ensures Scene(x, i + 1, rest, status, r, look, q, LookAfter(other, st, []))
  {
    hide Execution.At, Execution.Next, Execution.Valid, LookAt, Stands, AllClosed, Aggregate, Execution.Ids;
    hide FinalStatus, IsTerminal;
    DispatchMoves(x, i, st, rest, status);
  }

  /** The agent of r stores its one message and closes its result. */
  lemma Answers(x: Execution, i: nat, todo: seq<Statement>, status: Status, r: ResultId, row: Option<Status>,
                m: Progress, q: ResultId, other: Look)
    requires Scene(x, i, todo, status, r, Look(row, Some(([m], Ready))), q, other)
    requires ByAgent(x, i, 2, r) && m.allDone
    ensures Scene(x, i + 2, todo, status, r, Look(Some(FinalStatus(m)), Some(([], Counting))), q, other)
  {
    hide Execution.At, Execution.Next, Execution.Valid, LookAt, Stands, AllClosed, Aggregate, Execution.Ids;
    hide FinalStatus, IsTerminal;
    assert [m][0] == m && [m][1..] == [];
    AgentMoves(x, i, r, todo, status);
    AgentMoves(x, i + 1, r, todo, status);
  }

  /** The agent of r counts an open result and is done. */
  lemma CountsOpen(x: Execution, i: nat, todo: seq<Statement>, status: Status, r: ResultId, row: Option<Status>,
                   q: ResultId, other: Look)
    requires Scene(x, i, todo, status, r, Look(row, Some(([], Counting))), q, other)
    requires ByAgent(x, i, 1, r) && (!RowAtRest(Look(row, None)) || !RowAtRest(other))
    ensures Scene(x, i + 1, todo, status, r, Look(row, Some(([], Ready))), q, other)
  {
    ClosedByLooks(x, i);
    hide Execution.At, Execution.Next, Execution.Valid, LookAt, Stands, AllClosed, Aggregate, Execution.Ids;
    hide FinalStatus, IsTerminal;
    AgentMoves(x, i, r, todo, status);
  }

  /** The status that two rows, at rest or missing, add up to. */
  function Sum(a: Option<Status>, b: Option<Status>): Status {
    if a != Some(Failed) && b != Some(Failed) then Done
    else if a != Some(Done) && b != Some(Done) then Failed
    else Partial
  }

  /** The agent of r counts no open result. */
  lemma CountsNone(x: Execution, i: nat, todo: seq<Statement>, status: Status, r: ResultId, row: Option<Status>,
                   q: ResultId, other: Look)
    requires Scene(x, i, todo, status, r, Look(row, Some(([], Counting))), q, other)
    requires ByAgent(x, i, 1, r) && RowAtRest(Look(row, None)) && RowAtRest(other)
    ensures Scene(x, i + 1, todo, status, r, Look(row, Some(([], Tallying))), q, other)
  {
    ClosedByLooks(x, i);
    hide Execution.At, Execution.Next, Execution.Valid, LookAt, Stands, AllClosed, Aggregate, Execution.Ids;
    hide FinalStatus, IsTerminal;
    AgentMoves(x, i, r, todo, status);
  }

  /** The agent of r tallies. */
  lemma TalliesRows(x: Execution, i: nat, todo: seq<Statement>, status: Status, r: ResultId, row: Option<Status>,
                    q: ResultId, other: Look)
    requires Scene(x, i, todo, status, r, Look(row, Some(([], Tallying))), q, other) && ByAgent(x, i, 1, r)
    ensures Scene(x, i + 1, todo, status, r, Look(row, Some(([], ClosingRun(Sum(row, other.row))))), q, other)
  {
    AggregateByLooks(x, i);
    hide Execution.At, Execution.Next, Execution.Valid, LookAt, Stands, AllClosed, Aggregate, Execution.Ids;
    hide FinalStatus, IsTerminal;
    AgentMoves(x, i, r, todo, status);
  }

  lemma CountsAndTallies(x: Execution, i: nat, todo: seq<Statement>, status: Status, r: ResultId, row: Option<Status>,
                         q: ResultId, other: Look)
    requires Scene(x, i, todo, status, r, Look(row, Some(([], Counting))), q, other)
    requires ByAgent(x, i, 2, r) && RowAtRest(Look(row, None)) && RowAtRest(other)
    ensures Scene(x, i + 2, todo, status, r, Look(row, Some(([], ClosingRun(Sum(row, other.row))))), q, other)
    ensures x.Counts(i, r)
  {
    MoveKinds(x, i, r);
    assert x.Acts(i, r);
    hide Scene, Execution.Counts, Sum, RowAtRest;
    CountsNone(x, i, todo, status, r, row, q, other);
    TalliesRows(x, i + 1, todo, status, r, row, q, other);
  }

  /** The agent of r writes the run's status. */
  lemma Writes(x: Execution, i: nat, todo: seq<Statement>, status: Status, r: ResultId, row: Option<Status>,
               written: Status, q: ResultId, other: Look)
    requires Scene(x, i, todo, status, r, Look(row, Some(([], ClosingRun(written)))), q, other) && ByAgent(x, i, 1, r)
    ensures Scene(x, i + 1, todo, written, r, Look(row, Some(([], Ready))), q, other)
  {
    hide Execution.At, Execution.Next, Execution.Valid, LookAt, Stands, AllClosed, Aggregate, Execution.Ids;
    hide FinalStatus, IsTerminal;
    AgentMoves(x, i, r, todo, status);
  }

  /** How a run looks when all is done. */
  lemma Ending(x: Execution, status: Status, r: ResultId, look: Look, q: ResultId, other: Look)
    requires Scene(x, |x.moves|, [], status, r, look, q, other) && r in x.traces
    requires look.agent == Some(([], Ready)) && RowAtRest(look) && look.row.Some?
    requires RowAtRest(other) && other.row.Some? && (q in x.traces ==> other.agent == Some(([], Ready)))
    ensures x.Over() && (x.RightlyClosed() <==> status == Sum(look.row, other.row))
  {
    ClosedByLooks(x, |x.moves|);
    AggregateByLooks(x, |x.moves|);
    ReachedIds(x);
    hide Execution.At, Execution.Valid, LookAt, AllClosed, Aggregate, Execution.Ids, IsTerminal;
    EndingMeans(x, status);
  }

  lemma EndingMeans(x: Execution, status: Status)
    requires Stands(x.At(|x.moves|), [], x.run, status)
    requires forall r :: r in x.traces ==> LookAt(x.At(|x.moves|), r).agent == Some(([], Ready))
    ensures x.Over()
    ensures var db := x.At(|x.moves|).system.db;
      x.RightlyClosed() <==> AllClosed(db, x.run) && Aggregate(db, x.run) == status
  {
    hide AllClosed, Aggregate;
  }

  // ---------------------------------------------------------------------------------------------
  // Runs that stay open

  /** The agent closes its result before the dispatch marks it. */
  lemma ClosedTooEarly(x: Execution, r: ResultId, q: ResultId, m: Progress)
    requires x.Valid() && x.targets == [Target(r, true), Target(q, false)] && r in x.traces && x.traces[r] == [m]
    requires ByDispatch(x, 0, 2) && ByAgent(x, 2, 2, r) && ByDispatch(x, 4, 1)
    ensures Scene(x, 5, [Insert(q), Fail(q)], Running, r, Look(Some(Running), Some(([], Counting))), q,
                  Look(None, None))
    ensures [Insert(q), Fail(q)] == [Insert(q)] + [Fail(q)] && [Fail(q)] == [Fail(q)] + []
  {
    Opening(x, x.targets[0], x.targets[1]);
    EndsAllDone(x, r, m);
    hide Execution.At, Execution.Valid, Scene, Program, FinalStatus;
    var rest := [Insert(q), Fail(q)];
    Sends(x, 0, rest, Running, r, q, Look(None, None));
    Answers(x, 2, [Mark(r)] + rest, Running, r, Some(Pending), m, q, Look(None, None));
    Marks(x, 4, rest, Running, r, Look(Some(FinalStatus(m)), Some(([], Counting))), q, Look(None, None));
  }

  /** A reached and an unreached target: the dispatch marks the reached one's result running after the agent has closed
      it, so the agent's count finds its own result open, and nothing closes it again. */
  lemma LateMark(x: Execution, r: ResultId, q: ResultId, m: Progress)
    requires x.Valid() && x.targets == [Target(r, true), Target(q, false)] && x.traces == map[r := [m]]
    requires |x.moves| == 8 && ByDispatch(x, 0, 2) && ByAgent(x, 2, 2, r) && ByDispatch(x, 4, 3) && ByAgent(x, 7, 1, r)
    ensures x.Over() && !x.RightlyClosed()
    ensures Scene(x, 8, [], Running, r, Look(Some(Running), Some(([], Ready))), q, Look(Some(Failed), None))
  {
    ClosedTooEarly(x, r, q, m);
    hide Execution.At, Execution.Valid, Scene, Program, Execution.Over, Execution.RightlyClosed;
    var counting := Look(Some(Running), Some(([], Counting)));
    Dispatches(x, 5, Insert(q), [Fail(q)], Running, r, counting, q, Look(None, None));
    Dispatches(x, 6, Fail(q), [], Running, r, counting, q, Look(Some(Pending), None));
    CountsOpen(x, 7, [], Running, r, Some(Running), q, Look(Some(Failed), None));
    LeftOpen(x, r, q);
  }

  lemma LeftOpen(x: Execution, r: ResultId, q: ResultId)
    requires Scene(x, |x.moves|, [], Running, r, Look(Some(Running), Some(([], Ready))), q, Look(Some(Failed), None))
    requires x.traces.Keys == {r}
    ensures x.Over() && !x.RightlyClosed()
  {
    EndingMeans(x, Running);
  }

  lemma EndsAllDone(x: Execution, r: ResultId, m: Progress)
    requires x.Valid() && r in x.traces && x.traces[r] == [m]
    ensures m.allDone && (FinalStatus(m) == Done || FinalStatus(m) == Failed)
  {
    assert WellClosed(x.traces[r]);
  }

  /** The reached one of two targets is woken in time. */
  lemma WokenInTime(x: Execution, r: ResultId, q: ResultId, m: Progress)
    requires x.Valid() && x.targets == [Target(r, true), Target(q, false)] && r in x.traces && x.traces[r] == [m]
    requires ByDispatch(x, 0, 3)
    ensures Scene(x, 3, [Insert(q), Fail(q)], Running, r, Look(Some(Running), Some(([m], Ready))), q, Look(None, None))
    ensures m.allDone && [Insert(q), Fail(q)] == [Insert(q)] + [Fail(q)] && [Fail(q)] == [Fail(q)] + []
  {
    Opening(x, x.targets[0], x.targets[1]);
    EndsAllDone(x, r, m);
    hide Execution.At, Execution.Valid, Scene, Program, FinalStatus;
    Wakes(x, 0, [Insert(q), Fail(q)], Running, r, q, Look(None, None));
  }

  /** Its agent closes its result while the other one is pending. */
  lemma ClosedInTime(x: Execution, r: ResultId, q: ResultId, m: Progress)
    requires x.Valid() && x.targets == [Target(r, true), Target(q, false)] && r in x.traces && x.traces[r] == [m]
    requires ByDispatch(x, 0, 4) && ByAgent(x, 4, 2, r)
    ensures Scene(x, 6, [Fail(q)], Running, r, Look(Some(FinalStatus(m)), Some(([], Counting))),
                  q, Look(Some(Pending), None))
  {
    WokenInTime(x, r, q, m);
    hide Execution.At, Execution.Valid, Scene, FinalStatus, Program;
    Dispatches(x, 3, Insert(q), [Fail(q)], Running, r, Look(Some(Running), Some(([m], Ready))), q, Look(None, None));
    Answers(x, 4, [Fail(q)], Running, r, Some(Running), m, q, Look(Some(Pending), None));
  }

  /** A reached and an unreached target: the reached one is marked in time, but its agent counts while the other result
      is still pending. The dispatch then fails that one, and the run stays open although every result is closed. */
  lemma LateFail(x: Execution, r: ResultId, q: ResultId, m: Progress)
    requires x.Valid() && x.targets == [Target(r, true), Target(q, false)] && x.traces == map[r := [m]]
    requires |x.moves| == 8 && ByDispatch(x, 0, 4) && ByAgent(x, 4, 3, r) && ByDispatch(x, 7, 1)
    ensures x.Over() && !x.RightlyClosed()
    ensures Scene(x, 8, [], Running, r, Look(Some(FinalStatus(m)), Some(([], Ready))), q, Look(Some(Failed), None))
  {
    ClosedInTime(x, r, q, m);
    EndsAllDone(x, r, m);
    hide Execution.At, Execution.Valid, Scene, Execution.Over, Execution.RightlyClosed, FinalStatus, Program;
    var look := Look(Some(FinalStatus(m)), Some(([], Ready)));
    CountsOpen(x, 6, [Fail(q)], Running, r, Some(FinalStatus(m)), q, Look(Some(Pending), None));
    assert [Fail(q)] == [Fail(q)] + [];
    Dispatches(x, 7, Fail(q), [], Running, r, look, q, Look(Some(Pending), None));
    Ending(x, Running, r, look, q, Look(Some(Failed), None));
  }

  // ---------------------------------------------------------------------------------------------
  // Why the last close and some count do not decide

  /** An agent that has tallied too early holds its statement back. */
  const STALE: Look := Look(Some(Done), Some(([], ClosingRun(Done))))

  /** The first agent counts and tallies before the second result is inserted. */
  lemma TalliesFirst(x: Execution, r: ResultId, q: ResultId, m: Progress)
    requires x.Valid() && x.targets == [Target(r, true), Target(q, true)] && r in x.traces && x.traces[r] == [m]
    requires FinalStatus(m) == Done && ByDispatch(x, 0, 3) && ByAgent(x, 3, 4, r)
    ensures Scene(x, 7, [Insert(q), Send(q), Mark(q)], Running, r, STALE, q, Look(None, None))
  {
    Opening(x, x.targets[0], x.targets[1]);
    EndsAllDone(x, r, m);
    hide Execution.At, Execution.Valid, Scene, Program, FinalStatus;
    var rest := [Insert(q), Send(q), Mark(q)];
    Wakes(x, 0, rest, Running, r, q, Look(None, None));
    Answers(x, 3, rest, Running, r, Some(Running), m, q, Look(None, None));
    CountsAndTallies(x, 5, rest, Running, r, Some(Done), q, Look(None, None));
  }

  /** Then the second target is woken. */
  lemma TalliesEarly(x: Execution, r: ResultId, q: ResultId, m: Progress)
    requires x.Valid() && x.targets == [Target(r, true), Target(q, true)] && r in x.traces && x.traces[r] == [m]
    requires q in x.traces && FinalStatus(m) == Done
    requires ByDispatch(x, 0, 3) && ByAgent(x, 3, 4, r) && ByDispatch(x, 7, 3)
    ensures Scene(x, 10, [], Running, q, Look(Some(Running), Some((x.traces[q], Ready))), r, STALE)
  {
    hide *;
    TalliesFirst(x, r, q, m);
    Swap(x, 7, [Insert(q), Send(q), Mark(q)], Running, r, STALE, q, Look(None, None));
    assert [Insert(q), Send(q), Mark(q)] == [Insert(q), Send(q), Mark(q)] + [];
    Wakes(x, 7, [], Running, q, r, STALE);
  }

  /** The second agent counts all results closed and writes the right aggregate, and the first one overwrites it. */
  lemma WritesLate(x: Execution, r: ResultId, q: ResultId, f: Progress)
    requires Scene(x, 10, [], Running, q, Look(Some(Running), Some(([f], Ready))), r, STALE)
    requires f.allDone && FinalStatus(f) == Failed && |x.moves| == 16
    requires ByAgent(x, 10, 5, q) && ByAgent(x, 15, 1, r)
    ensures x.Counts(12, q) && forall p :: p in x.Ids() ==> x.Ended(12, p) && x.Ended(16, p)
    ensures Scene(x, 16, [], Done, r, Look(Some(Done), Some(([], Ready))), q, Look(Some(Failed), Some(([], Ready))))
  {
    hide Execution.At, Execution.Valid, Scene, FinalStatus, Execution.Ended, Execution.Counts;
    var done, failed := Look(Some(Done), Some(([], Ready))), Look(Some(Failed), Some(([], Ready)));
    Answers(x, 10, [], Running, q, Some(Running), f, r, STALE);
    BothEnded(x, 12, [], Running, q, Look(Some(Failed), Some(([], Counting))), r, STALE);
    CountsAndTallies(x, 12, [], Running, q, Some(Failed), r, STALE);
    Writes(x, 14, [], Running, q, Some(Failed), Partial, r, STALE);
    Swap(x, 15, [], Partial, q, failed, r, STALE);
    Writes(x, 15, [], Partial, r, Some(Done), Done, q, failed);
    BothEnded(x, 16, [], Done, r, done, q, failed);
  }

  /** Two reached targets. The first agent counts and tallies before the second result is inserted, and writes what it
      saw only after the second agent has counted all results closed and written the right aggregate. Every close
      follows its mark and a count comes after every result has ended, but the run ends as done with a failed device. */
  lemma StaleTally(x: Execution, r: ResultId, q: ResultId, m: Progress, f: Progress)
    requires x.Valid() && x.targets == [Target(r, true), Target(q, true)] && x.traces == map[r := [m], q := [f]]
    requires FinalStatus(m) == Done && FinalStatus(f) == Failed
    requires |x.moves| == 16 && ByDispatch(x, 0, 3) && ByAgent(x, 3, 4, r) && ByDispatch(x, 7, 3)
    requires ByAgent(x, 10, 5, q) && ByAgent(x, 15, 1, r)
    ensures x.Over() && !x.RightlyClosed()
    ensures x.Counts(12, q) && forall p :: p in x.Ids() ==> x.Ended(12, p) && x.Ended(16, p)
    ensures Scene(x, 16, [], Done, r, Look(Some(Done), Some(([], Ready))), q, Look(Some(Failed), Some(([], Ready))))
  {
    assert x.targets[0].result != x.targets[1].result;
    EndsAllDone(x, q, f);
    hide Execution.At, Execution.Valid, Scene, FinalStatus, Execution.Over, Execution.RightlyClosed;
    hide Execution.Ended, Execution.Counts;
    TalliesEarly(x, r, q, m);
    WritesLate(x, r, q, f);
    Ending(x, Done, r, Look(Some(Done), Some(([], Ready))), q, Look(Some(Failed), Some(([], Ready))));
  }

  /** Results whose rows are at rest have ended. */
  lemma BothEnded(x: Execution, i: nat, todo: seq<Statement>, status: Status,
                  r: ResultId, look: Look, q: ResultId, other: Look)
    requires Scene(x, i, todo, status, r, look, q, other)
    requires RowAtRest(look) && look.row.Some? && RowAtRest(other) && other.row.Some?
    ensures forall p :: p in x.Ids() ==> x.Ended(i, p)
  {
    StatusAt(x, i, r);
    StatusAt(x, i, q);
    hide Execution.At, Execution.Valid, Execution.Ended, Execution.Ids;
  }

  /** An agent that fails closes the run while its result is the only one. */
  lemma ClosesAlone(x: Execution, r: ResultId, q: ResultId, f: Progress)
    requires x.Valid() && x.targets == [Target(r, true), Target(q, false)] && r in x.traces && x.traces[r] == [f]
    requires ByDispatch(x, 0, 3) && ByAgent(x, 3, 5, r) && FinalStatus(f) == Failed
    ensures Scene(x, 8, [Insert(q), Fail(q)], Failed, r, Look(Some(Failed), Some(([], Ready))), q, Look(None, None))
    ensures [Insert(q), Fail(q)] == [Insert(q)] + [Fail(q)] && [Fail(q)] == [Fail(q)] + []
  {
    WokenInTime(x, r, q, f);
    hide Execution.At, Execution.Valid, Scene, Program, FinalStatus;
    var rest := [Insert(q), Fail(q)];
    Answers(x, 3, rest, Running, r, Some(Running), f, q, Look(None, None));
    CountsAndTallies(x, 5, rest, Running, r, Some(Failed), q, Look(None, None));
    Writes(x, 7, rest, Running, r, Some(Failed), Failed, q, Look(None, None));
  }

  /** A reached target that fails and an unreached one. The agent closes the run before the unreached result is even
      inserted, as failed, and failed is what all results add up to in the end: the run is right without any count that
      has seen every result. */
  lemma LuckyClose(x: Execution, r: ResultId, q: ResultId, f: Progress)
    requires x.Valid() && x.targets == [Target(r, true), Target(q, false)] && x.traces == map[r := [f]]
    requires FinalStatus(f) == Failed
    requires |x.moves| == 10 && ByDispatch(x, 0, 3) && ByAgent(x, 3, 5, r) && ByDispatch(x, 8, 2)
    ensures x.Over() && x.RightlyClosed()
    ensures q in x.Ids() && forall c: nat, p :: x.Counts(c, p) ==> !x.Ended(c, q)
  {
    assert x.targets[1] in x.targets && x.targets[0].result != q;
    ClosesAlone(x, r, q, f);
    NoCounts(x, 8);
    hide Execution.At, Execution.Valid, Scene, Program, Execution.Over, Execution.RightlyClosed, FinalStatus;
    hide Execution.Ended, Execution.Counts;
    var look := Look(Some(Failed), Some(([], Ready)));
    NotInserted(x, 8, [Insert(q), Fail(q)], Failed, r, look, q, Look(None, None));
    forall c: nat, p | x.Counts(c, p) ensures !x.Ended(c, q) {
      NotYetEnded(x, c, 8, q);
    }
    Dispatches(x, 8, Insert(q), [Fail(q)], Failed, r, look, q, Look(None, None));
    Dispatches(x, 9, Fail(q), [], Failed, r, look, q, Look(Some(Pending), None));
    Ending(x, Failed, r, look, q, Look(Some(Failed), None));
  }

  lemma NoCounts(x: Execution, i: nat)
    requires forall k :: i <= k < |x.moves| ==> x.moves[k].DispatchMove?
    ensures forall c: nat, p :: c >= i ==> !x.Counts(c, p)
  {
  }

  /** An unreached result that has not ended had not ended before. */
  lemma NotYetEnded(x: Execution, c: nat, i: nat, r: ResultId)
    requires x.Valid() && r !in x.traces && i <= |x.moves| && !x.Ended(i, r)
    ensures c <= i ==> !x.Ended(c, r)
  {
    if c <= i && x.Ended(c, r) {
      AtKept(x, c);
      NeverToBeMarked(x, x.At(c).todo, r);
      EndedStays(x, c, i, r);
    }
  }

  lemma NeverToBeMarked(x: Execution, todo: seq<Statement>, r: ResultId)
    requires Sound(x, todo) && r !in x.traces
    ensures Mark(r) !in todo
  {
  }

  lemma NotInserted(x: Execution, i: nat, todo: seq<Statement>, status: Status,
                    r: ResultId, look: Look, q: ResultId, other: Look)
    requires Scene(x, i, todo, status, r, look, q, other) && other.row == None
    ensures !x.Ended(i, q)
  {
    StatusAt(x, i, q);
    hide Execution.At, Execution.Valid, Execution.Ended, Execution.Ids;
  }
}
