/** Many agents' messages persisted at once, interleaved statement by statement. Each agent's connection handles its
    messages one after the other; nothing orders the statements of different agents. */
module ScriptProtocol {
  import opened Common
  import opened Script
  import opened ScriptDb

  /** Where the handling of one message is: the statement it executes next. */
  datatype Phase =
    | Ready
    | Closing(result: Status)
    | Counting
    | Tallying
    | ClosingRun(run: Status)

  /** One agent: the messages still to come, the statement it is at, and the messages stored so far. */
  datatype Agent = Agent(todo: seq<Progress>, phase: Phase, sent: seq<Stamped>)

  datatype System = System(db: Db, agents: map<ResultId, Agent>)

  function Start(db: Db, traces: map<ResultId, seq<Progress>>): System {
    System(db, map r | r in traces :: Agent(traces[r], Ready, []))
  }

  predicate Finished(a: Agent) {
    a.todo == [] && a.phase == Ready
  }

  /** The agent of result r executes its next statement at time now. */
  function Act(s: System, r: ResultId, now: Time): System
    requires r in s.agents
  {
    var a := s.agents[r];
    match a.phase
    case Ready =>
      if a.todo == [] then s
      else
        var p := a.todo[0];
        (match UpsertStep(s.db, r, p, now)
         case Err(_) => System(s.db, s.agents[r := a.(todo := a.todo[1..])])
         case Ok(db) =>
           var phase := if p.allDone then Closing(FinalStatus(p)) else Ready;
           System(db, s.agents[r := Agent(a.todo[1..], phase, a.sent + [Stamped(p, now)])]))
    case Closing(status) =>
      System(CloseResult(s.db, r, status, now), s.agents[r := a.(phase := Counting)])
    case Counting =>
      var (total, pending) := CountPending(s.db, r);
      s.(agents := s.agents[r := a.(phase := if total > 0 && pending == 0 then Tallying else Ready)])
    case Tallying =>
      var (done, failed) := CountOutcomes(s.db, r);
      s.(agents := s.agents[r := a.(phase := ClosingRun(RunStatus(done, failed)))])
    case ClosingRun(status) =>
      System(CloseRun(s.db, r, status, now), s.agents[r := a.(phase := Ready)])
  }

  /** One entry of a schedule: which agent moves, and when. */
  datatype Turn = Turn(agent: ResultId, at: Time)

  /** A run of the system under a schedule; a turn of an unknown agent does nothing. */
  function Exec(s: System, schedule: seq<Turn>): System {
    if schedule == [] then s
    else
      var before := Exec(s, schedule[..|schedule| - 1]);
      var turn := schedule[|schedule| - 1];
      if turn.agent in before.agents then Act(before, turn.agent, turn.at) else before
  }

  // ---------------------------------------------------------------------------------------------
  // What the agents and the dispatch promise

  /** The trace can be stored and ends with an all-done message, and all its all-done messages close the device
      alike. */
  predicate WellClosed(trace: seq<Progress>) {
    && trace != [] && trace[|trace| - 1].allDone
    && (forall m :: m in trace ==> Storable(m))
    && forall m :: m in trace && m.allDone ==> FinalStatus(m) == ClosingStatus(trace)
  }

  function ClosingStatus(trace: seq<Progress>): Status {
    if trace == [] then Done else FinalStatus(trace[|trace| - 1])
  }

  predicate AllClosed(db: Db, run: RunId) {
    forall r :: r in db.results && db.results[r].runId == run ==> IsTerminal(db.results[r].status)
  }

  /** The state that a finished dispatch leaves for the agents: their results are running, every other result of
      their runs is closed already, their runs are open, and nothing is stored for them. */
  ghost predicate Dispatched(db: Db, traces: map<ResultId, seq<Progress>>) {
    && (forall r :: r in traces ==> WellClosed(traces[r]))
    && (forall r :: r in traces ==> r in db.results && db.results[r].status == Running)
    && (forall r :: r in traces ==> db.results[r].runId in db.runs && db.runs[db.results[r].runId].status == Running)
    && (forall r, q :: r in traces && q in db.results && q !in traces && db.results[q].runId == db.results[r].runId
          ==> IsTerminal(db.results[q].status))
    && (forall r, n :: r in traces ==> (r, n) !in db.steps)
  }

  /** The status that the closed results of a run add up to. */
  ghost function Aggregate(db: Db, run: RunId): Status {
    if forall r :: r in db.results && db.results[r].runId == run ==> db.results[r].status != Failed then Done
    else if forall r :: r in db.results && db.results[r].runId == run ==> db.results[r].status != Done then Failed
    else Partial
  }

  /** An uninterrupted dispatch of a new run, with new result ids, leaves that state for the agents it reached. */
  lemma DispatchPrepares(before: Db, after: Db, run: RunId, targets: seq<Target>, now: Time,
                         traces: map<ResultId, seq<Progress>>)
    requires AfterDispatch(before, after, run, targets, now) && DistinctTargets(targets)
    requires forall r :: r in before.results ==> before.results[r].runId != run && r !in ResultIds(targets)
    requires forall r, n :: r in ResultIds(targets) ==> (r, n) !in before.steps
    requires forall r :: r in traces <==> exists t :: t in targets && t.connected && t.result == r
    requires forall r :: r in traces ==> WellClosed(traces[r])
    ensures Dispatched(after, traces)
  {
    hide WellClosed;
    forall r | r in traces
      ensures r in ResultIds(targets) && after.results[r] == ResultRow(run, Running, None, Some(now), None)
    {
      var t :| t in targets && t.connected && t.result == r;
    }
    forall q | q in after.results && q !in traces && after.results[q].runId == run
      ensures IsTerminal(after.results[q].status)
    {
      assert q in ResultIds(targets);
      var t :| t in targets && t.result == q;
      assert !t.connected;
    }
    if r :| r in traces {
      var t :| t in targets && t.connected && t.result == r;
    }
  }

  /** If no agent took the message, the dispatch itself closes the run with the aggregate of its failed results. */
  lemma UnreachedRunIsClosed(before: Db, after: Db, run: RunId, targets: seq<Target>, now: Time)
    requires AfterDispatch(before, after, run, targets, now) && targets != []
    requires forall r :: r in before.results ==> before.results[r].runId != run && r !in ResultIds(targets)
    requires forall t :: t in targets ==> !t.connected
    ensures AllClosed(after, run) && after.runs[run].status == Failed == Aggregate(after, run)
  {
    forall q | q in after.results && after.results[q].runId == run ensures after.results[q].status == Failed {
      assert q in ResultIds(targets);
      var t :| t in targets && t.result == q;
    }
    assert targets[0] in targets;
    assert targets[0].result in ResultIds(targets);
  }

  // ---------------------------------------------------------------------------------------------
  // The counting statements

  lemma PendingCountIsZero(db: Db, r: ResultId)
    requires r in db.results
    requires forall q :: q in db.results && db.results[q].runId == db.results[r].runId ==>
      IsOpen(db.results[q].status) || IsTerminal(db.results[q].status)
    ensures CountPending(db, r).0 > 0
    ensures CountPending(db, r).1 == 0 <==> AllClosed(db, db.results[r].runId)
  {
    assert r in Siblings(db, r);
    if q :| q in db.results && db.results[q].runId == db.results[r].runId && !IsTerminal(db.results[q].status) {
      assert q in OpenSiblings(db, r);
    } else {
      assert forall q :: q !in OpenSiblings(db, r);
    }
  }

  lemma TallyIsAggregate(db: Db, r: ResultId)
    requires r in db.results
    ensures RunStatus(CountOutcomes(db, r).0, CountOutcomes(db, r).1) == Aggregate(db, db.results[r].runId)
  {
    var run := db.results[r].runId;
    if f :| f in db.results && db.results[f].runId == run && db.results[f].status == Failed {
      assert f in SiblingsAt(db, r, Failed);
      if d :| d in db.results && db.results[d].runId == run && db.results[d].status == Done {
        assert d in SiblingsAt(db, r, Done);
      } else {
        assert forall q :: q !in SiblingsAt(db, r, Done);
      }
    } else {
      assert forall q :: q !in SiblingsAt(db, r, Failed);
    }
  }

  // ---------------------------------------------------------------------------------------------
  // The invariant

  /** Rows never move between runs, never appear or vanish, and results without an agent keep their row. */
  ghost predicate SameShape(db0: Db, s: System, traces: map<ResultId, seq<Progress>>) {
    && s.agents.Keys == traces.Keys
    && s.db.results.Keys == db0.results.Keys && s.db.runs.Keys == db0.runs.Keys
    && (forall r :: r in db0.results ==> s.db.results[r].runId == db0.results[r].runId)
    && (forall r :: r in db0.results && r !in traces ==> s.db.results[r] == db0.results[r])
  }

  /** One agent against its trace: nothing lost or reordered, and its result closed once it is past closing. */
  ghost predicate AgentOk(a: Agent, status: Status, trace: seq<Progress>) {
    && Messages(a.sent) + a.todo == trace
    && (status == Running || status == ClosingStatus(trace))
    && (a.phase.Closing? ==> a.phase.result == ClosingStatus(trace))
    && (a.phase.Counting? || a.phase.Tallying? || a.phase.ClosingRun? || Finished(a) ==> status == ClosingStatus(trace))
  }

  ghost predicate AgentsOk(s: System, traces: map<ResultId, seq<Progress>>)
    requires s.agents.Keys == traces.Keys
  {
    forall r :: r in traces ==> r in s.db.results && AgentOk(s.agents[r], s.db.results[r].status, traces[r])
  }

  /** The agent is about to count, tally or close: the run is still to be looked at. */
  predicate WillLook(a: Agent) {
    a.phase.Counting? || a.phase.Tallying? || a.phase.ClosingRun?
  }

  ghost predicate SomeoneWillLook(s: System, run: RunId) {
    exists r :: r in s.agents && r in s.db.results && s.db.results[r].runId == run && WillLook(s.agents[r])
  }

  /** Tallying agents and closed runs have seen every result closed; if all are closed, the run is or will be. */
  ghost predicate RunOk(s: System, r: ResultId)
    requires r in s.agents && r in s.db.results && s.db.results[r].runId in s.db.runs
  {
    var run, phase := s.db.results[r].runId, s.agents[r].phase;
    && (phase.Tallying? || phase.ClosingRun? ==> AllClosed(s.db, run))
    && (phase.ClosingRun? ==> phase.run == Aggregate(s.db, run))
    && (s.db.runs[run].status != Running ==> AllClosed(s.db, run) && s.db.runs[run].status == Aggregate(s.db, run))
    && (AllClosed(s.db, run) && s.db.runs[run].status == Running ==> SomeoneWillLook(s, run))
  }

  ghost predicate RunsOk(s: System) {
    forall r :: r in s.agents ==> r in s.db.results && s.db.results[r].runId in s.db.runs && RunOk(s, r)
  }

  ghost predicate Inv(db0: Db, s: System, traces: map<ResultId, seq<Progress>>) {
    SameShape(db0, s, traces) && AgentsOk(s, traces) && RunsOk(s)
  }

  // ---------------------------------------------------------------------------------------------
  // The invariant holds at the start

  lemma StartsInvariant(db: Db, traces: map<ResultId, seq<Progress>>)
    requires Dispatched(db, traces)
    ensures Inv(db, Start(db, traces), traces)
  {
    StartsAgents(db, traces);
    StartsRuns(db, traces);
  }

  lemma StartsAgents(db: Db, traces: map<ResultId, seq<Progress>>)
    requires Dispatched(db, traces)
    ensures SameShape(db, Start(db, traces), traces) && AgentsOk(Start(db, traces), traces)
  {
    forall r | r in traces ensures AgentOk(Start(db, traces).agents[r], db.results[r].status, traces[r]) {
      assert WellClosed(traces[r]) && Messages([]) == [];
      assert [] + traces[r] == traces[r];
    }
  }

  lemma StartsRuns(db: Db, traces: map<ResultId, seq<Progress>>)
    requires Dispatched(db, traces)
    ensures RunsOk(Start(db, traces))
  {
    hide WellClosed, Aggregate;
    var s := Start(db, traces);
    forall r | r in s.agents ensures r in s.db.results && s.db.results[r].runId in s.db.runs && RunOk(s, r) {
      assert !IsTerminal(db.results[r].status);
    }
  }

  // ---------------------------------------------------------------------------------------------
  // Every statement keeps it

  /** If results keep their run and status, what the runs can see is unchanged. */
  lemma SameStatuses(db: Db, db': Db, run: RunId)
    requires db'.results.Keys == db.results.Keys
    requires forall r :: r in db.results ==>
      db'.results[r].runId == db.results[r].runId && db'.results[r].status == db.results[r].status
    ensures AllClosed(db', run) <==> AllClosed(db, run)
    ensures Aggregate(db', run) == Aggregate(db, run)
  {
  }

  lemma UpsertKeepsAgent(a: Agent, status: Status, trace: seq<Progress>, now: Time)
    requires WellClosed(trace) && AgentOk(a, status, trace) && a.phase == Ready && a.todo != []
    ensures Storable(a.todo[0])
    ensures var p := a.todo[0];
      AgentOk(Agent(a.todo[1..], if p.allDone then Closing(FinalStatus(p)) else Ready, a.sent + [Stamped(p, now)]),
              status, trace)
  {
    MessagesAppend(a.sent, Stamped(a.todo[0], now));
    MoveHead(Messages(a.sent), a.todo);
    assert a.todo[0] == trace[|a.sent|];
    assert a.todo[1..] == [] ==> a.todo[0] == trace[|trace| - 1];
  }

  lemma MoveHead<T>(a: seq<T>, b: seq<T>)
    requires b != []
    ensures (a + [b[0]]) + b[1..] == a + b
  {
  }

  /** One statement of r touches only r's agent, r's result status and the status of r's run. */
  lemma ActTouchesOne(s: System, r: ResultId, now: Time)
    requires r in s.agents
    ensures var s' := Act(s, r, now);
      && s'.agents.Keys == s.agents.Keys && (forall q :: q in s.agents && q != r ==> s'.agents[q] == s.agents[q])
      && s'.db.results.Keys == s.db.results.Keys && s'.db.runs.Keys == s.db.runs.Keys
      && (forall q :: q in s.db.results ==> s'.db.results[q].runId == s.db.results[q].runId)
      && (forall q :: q in s.db.results && q != r ==> s'.db.results[q] == s.db.results[q])
      && (!s.agents[r].phase.Closing? ==> s'.db.results == s.db.results)
      && (!s.agents[r].phase.ClosingRun? ==> s'.db.runs == s.db.runs)
  {
    hide CountPending, CountOutcomes, MergedStep, InsertedStep;
  }

  /** What one statement of r does to r's agent and the status of its result. */
  lemma OwnStep(s: System, r: ResultId, now: Time)
    requires r in s.agents && r in s.db.results
    ensures var s' := Act(s, r, now); var a := s.agents[r];
      && r in s'.agents && r in s'.db.results
      && var a', status, status' := s'.agents[r], s.db.results[r].status, s'.db.results[r].status;
         if a.phase != Ready || a.todo == [] then MovesOn(a, status, a', status')
         else if !Storable(a.todo[0]) then a' == a.(todo := a.todo[1..]) && status' == status
         else
           && a' == Agent(a.todo[1..], if a.todo[0].allDone then Closing(FinalStatus(a.todo[0])) else Ready,
                          a.sent + [Stamped(a.todo[0], now)])
           && status' == status
  {
    hide CountPending, CountOutcomes, MergedStep, InsertedStep;
  }

  /** A statement other than the upsert: the close sets the status, the others leave it; nothing is sent. */
  predicate MovesOn(a: Agent, status: Status, a': Agent, status': Status) {
    && a'.todo == a.todo && a'.sent == a.sent
    && match a.phase
       case Ready => a' == a && status' == status
       case Closing(result) => a'.phase == Counting && status' == result
       case _ => status' == status && (WillLook(a') || a'.phase == Ready)
  }

  lemma MovingOnKeepsAgent(a: Agent, status: Status, a': Agent, status': Status, trace: seq<Progress>)
    requires AgentOk(a, status, trace) && MovesOn(a, status, a', status')
    ensures AgentOk(a', status', trace)
  {
    hide Messages, ClosingStatus;
  }

  lemma ActKeepsAgents(db0: Db, s: System, traces: map<ResultId, seq<Progress>>, r: ResultId, now: Time)
    requires Dispatched(db0, traces) && SameShape(db0, s, traces) && AgentsOk(s, traces) && r in s.agents
    ensures SameShape(db0, Act(s, r, now), traces) && AgentsOk(Act(s, r, now), traces)
  {
    hide Act, AgentOk, WellClosed, MovesOn;
    ActTouchesOne(s, r, now);
    var s', a, status := Act(s, r, now), s.agents[r], s.db.results[r].status;
    assert AgentOk(a, status, traces[r]);
    OwnStep(s, r, now);
    if a.phase == Ready && a.todo != [] {
      UpsertKeepsAgent(a, status, traces[r], now);
    } else {
      MovingOnKeepsAgent(a, status, s'.agents[r], s'.db.results[r].status, traces[r]);
    }
    forall q | q in traces ensures q in s'.db.results && AgentOk(s'.agents[q], s'.db.results[q].status, traces[q]) {
      assert AgentOk(s.agents[q], s.db.results[q].status, traces[q]);
    }
  }

  lemma UpsertKeepsRuns(s: System, r: ResultId, now: Time)
    requires RunsOk(s)
    requires r in s.agents && s.agents[r].phase == Ready && s.agents[r].todo != []
    ensures RunsOk(Act(s, r, now))
  {
    hide RunsOk;
    ActTouchesOne(s, r, now);
    PhaseChangeKeepsRuns(s, Act(s, r, now), r);
  }

  /** A step that leaves results and runs alone and does not enter or leave the looking phases. */
  lemma PhaseChangeKeepsRuns(s: System, s': System, r: ResultId)
    requires RunsOk(s) && s'.agents.Keys == s.agents.Keys && r in s.agents
    requires s'.db.results == s.db.results && s'.db.runs == s.db.runs
    requires forall q :: q in s.agents && q != r ==> s'.agents[q] == s.agents[q]
    requires !WillLook(s.agents[r]) && !WillLook(s'.agents[r])
    ensures RunsOk(s')
  {
    forall q | q in s'.agents ensures RunOk(s', q) {
      var run := s.db.results[q].runId;
      assert RunOk(s, q);
      SameStatuses(s.db, s'.db, run);
      if SomeoneWillLook(s, run) {
        var w :| w in s.agents && w in s.db.results && s.db.results[w].runId == run && WillLook(s.agents[w]);
        assert w != r && s'.agents[w] == s.agents[w];
      }
    }
  }

  lemma ClosingKeepsRuns(db0: Db, s: System, traces: map<ResultId, seq<Progress>>, r: ResultId, now: Time)
    requires Dispatched(db0, traces) && Inv(db0, s, traces)
    requires r in s.agents && s.agents[r].phase.Closing?
    ensures RunsOk(Act(s, r, now))
  {
    hide RunsOk, Messages, ClosingStatus;
    ActTouchesOne(s, r, now);
    assert WellClosed(traces[r]);
    assert AgentOk(s.agents[r], s.db.results[r].status, traces[r]);
    CloseKeepsRuns(s, Act(s, r, now), r);
  }

  /** Closing a result whose agent will look next. */
  lemma CloseKeepsRuns(s: System, s': System, r: ResultId)
    requires RunsOk(s) && s'.agents.Keys == s.agents.Keys && r in s.agents
    requires s'.db.results.Keys == s.db.results.Keys && s'.db.runs == s.db.runs
    requires forall q :: q in s.db.results && q != r ==> s'.db.results[q] == s.db.results[q]
    requires forall q :: q in s.agents && q != r ==> s'.agents[q] == s.agents[q]
    requires s'.db.results[r].runId == s.db.results[r].runId
    requires IsTerminal(s.db.results[r].status) ==> s'.db.results[r].status == s.db.results[r].status
    requires s'.agents[r].phase.Counting? && !WillLook(s.agents[r])
    ensures RunsOk(s')
  {
    var run := s.db.results[r].runId;
    assert SomeoneWillLook(s', run);
    forall q | q in s'.agents ensures RunOk(s', q) {
      assert RunOk(s, q);
      var run' := s.db.results[q].runId;
      if run' == run {
        if AllClosed(s.db, run) {
          SameStatuses(s.db, s'.db, run);
        }
      } else {
        OtherRunsUnseen(s.db, s'.db, r, run');
        StillLooking(s, s', r, run');
      }
    }
  }

  /** Agents other than r still look at their run. */
  lemma StillLooking(s: System, s': System, r: ResultId, run: RunId)
    requires s'.agents.Keys == s.agents.Keys && s'.db.results.Keys == s.db.results.Keys
    requires forall q :: q in s.db.results ==> s'.db.results[q].runId == s.db.results[q].runId
    requires forall q :: q in s.agents && q != r ==> s'.agents[q] == s.agents[q]
    requires r in s.agents ==>
      !WillLook(s.agents[r]) || WillLook(s'.agents[r]) || (r in s.db.results && s.db.results[r].runId != run)
    ensures SomeoneWillLook(s, run) ==> SomeoneWillLook(s', run)
  {
    if w :| w in s.agents && w in s.db.results && s.db.results[w].runId == run && WillLook(s.agents[w]) {
      assert WillLook(s'.agents[w]);
    }
  }

  lemma OtherRunsUnseen(db: Db, db': Db, r: ResultId, run: RunId)
    requires r in db.results && db.results[r].runId != run
    requires db'.results.Keys == db.results.Keys && db'.results[r].runId == db.results[r].runId
    requires forall q :: q in db.results && q != r ==> db'.results[q] == db.results[q]
    ensures AllClosed(db', run) <==> AllClosed(db, run)
    ensures Aggregate(db', run) == Aggregate(db, run)
  {
  }

  /** Results of a run with agents are open or terminal, so the pending count tells whether all are closed. */
  lemma StatusesAreKnown(db0: Db, s: System, traces: map<ResultId, seq<Progress>>, r: ResultId)
    requires Dispatched(db0, traces) && Inv(db0, s, traces) && r in s.agents
    ensures r in s.db.results && CountPending(s.db, r).0 > 0
    ensures CountPending(s.db, r).1 == 0 <==> AllClosed(s.db, s.db.results[r].runId)
  {
    forall q | q in s.db.results && s.db.results[q].runId == s.db.results[r].runId
      ensures IsOpen(s.db.results[q].status) || IsTerminal(s.db.results[q].status)
    {
      if q in traces {
        assert AgentOk(s.agents[q], s.db.results[q].status, traces[q]);
        assert WellClosed(traces[q]);
      }
    }
    PendingCountIsZero(s.db, r);
  }

  lemma CountKeepsRuns(s: System, r: ResultId, now: Time)
    requires RunsOk(s) && r in s.agents && s.agents[r].phase.Counting? && r in s.db.results
    requires CountPending(s.db, r).1 == 0 <==> AllClosed(s.db, s.db.results[r].runId)
    requires CountPending(s.db, r).0 > 0
    ensures RunsOk(Act(s, r, now))
  {
    hide Aggregate, CountPending;
    var s' := Act(s, r, now);
    assert s'.db == s.db;
    forall q | q in s'.agents ensures RunOk(s', q) {
      assert RunOk(s, q);
      var run := s.db.results[q].runId;
      if AllClosed(s.db, run) {
        StillLooking(s, s', r, run);
      }
    }
  }

  lemma TallyKeepsRuns(s: System, r: ResultId, now: Time)
    requires RunsOk(s) && r in s.agents && s.agents[r].phase.Tallying?
    ensures RunsOk(Act(s, r, now))
  {
    hide Aggregate, CountOutcomes, RunStatus, AllClosed;
    var s' := Act(s, r, now);
    assert s'.db == s.db;
    assert RunOk(s, r);
    TallyIsAggregate(s.db, r);
    forall q | q in s'.agents ensures RunOk(s', q) {
      assert RunOk(s, q);
      StillLooking(s, s', r, s.db.results[q].runId);
    }
  }

  lemma CloseRunKeepsRuns(s: System, r: ResultId, now: Time)
    requires RunsOk(s) && r in s.agents && s.agents[r].phase.ClosingRun?
    ensures RunsOk(Act(s, r, now))
  {
    var s' := Act(s, r, now);
    var run := s.db.results[r].runId;
    assert RunOk(s, r);
    assert s'.db.results == s.db.results;
    assert s'.db.runs[run].status == Aggregate(s.db, run) != Running;
    forall q | q in s'.agents ensures RunOk(s', q) {
      assert RunOk(s, q);
      var run' := s.db.results[q].runId;
      SameStatuses(s.db, s'.db, run');
      if run' != run {
        StillLooking(s, s', r, run');
      }
    }
  }

  lemma ActKeeps(db0: Db, s: System, traces: map<ResultId, seq<Progress>>, r: ResultId, now: Time)
    requires Dispatched(db0, traces) && Inv(db0, s, traces) && r in s.agents
    ensures Inv(db0, Act(s, r, now), traces)
  {
    hide RunsOk, AgentsOk, SameShape, Dispatched;
    ActKeepsAgents(db0, s, traces, r, now);
    match s.agents[r].phase
    case Ready =>
      if s.agents[r].todo != [] {
        UpsertKeepsRuns(s, r, now);
      }
    case Closing(_) => ClosingKeepsRuns(db0, s, traces, r, now);
    case Counting =>
      StatusesAreKnown(db0, s, traces, r);
      CountKeepsRuns(s, r, now);
    case Tallying => TallyKeepsRuns(s, r, now);
    case ClosingRun(_) => CloseRunKeepsRuns(s, r, now);
  }

  lemma {:induction false} ExecKeeps(db0: Db, traces: map<ResultId, seq<Progress>>, schedule: seq<Turn>)
    requires Dispatched(db0, traces)
    ensures Inv(db0, Exec(Start(db0, traces), schedule), traces)
  {
    if schedule == [] {
      StartsInvariant(db0, traces);
    } else {
      hide Inv, Dispatched;
      var n := |schedule| - 1;
      ExecKeeps(db0, traces, schedule[..n]);
      var before := Exec(Start(db0, traces), schedule[..n]);
      if schedule[n].agent in before.agents {
        ActKeeps(db0, before, traces, schedule[n].agent, schedule[n].at);
      }
    }
  }

  // ---------------------------------------------------------------------------------------------
  // What every schedule guarantees

  /** Under every schedule: a run that is no longer running has all its results closed, each device that an agent
      answers for with that agent's verdict, and carries their aggregate; and an agent about to close its run is about
      to write that aggregate, so all closing writers agree. */
  lemma NeverClosedEarly(db0: Db, traces: map<ResultId, seq<Progress>>, schedule: seq<Turn>, r: ResultId)
    requires Dispatched(db0, traces) && r in traces
    ensures var s := Exec(Start(db0, traces), schedule); var db, run := s.db, db0.results[r].runId;
      && run in db.runs && db.results.Keys == db0.results.Keys
      && (r in s.agents && s.agents[r].phase.ClosingRun? ==>
            AllClosed(db, run) && s.agents[r].phase.run == Aggregate(db, run))
      && (db.runs[run].status != Running ==>
            && AllClosed(db, run)
            && db.runs[run].status == Aggregate(db, run)
            && (forall q :: q in traces && db0.results[q].runId == run ==>
                  db.results[q].status == ClosingStatus(traces[q])))
  {
    ExecKeeps(db0, traces, schedule);
    var s := Exec(Start(db0, traces), schedule);
    assert RunOk(s, r);
    forall q | q in traces && db0.results[q].runId == db0.results[r].runId && AllClosed(s.db, db0.results[r].runId)
      ensures s.db.results[q].status == ClosingStatus(traces[q])
    {
      assert AgentOk(s.agents[q], s.db.results[q].status, traces[q]);
    }
  }

  /** Once every agent of a run has finished, the run is closed with the aggregate of the agents' verdicts and of the
      devices that were never reached. */
  lemma ClosedWhenAllFinished(db0: Db, traces: map<ResultId, seq<Progress>>, schedule: seq<Turn>, r: ResultId)
    requires Dispatched(db0, traces) && r in traces
    requires var s := Exec(Start(db0, traces), schedule);
      forall q :: q in s.agents && q in traces && db0.results[q].runId == db0.results[r].runId ==> Finished(s.agents[q])
    ensures var db := Exec(Start(db0, traces), schedule).db; var run := db0.results[r].runId;
      && run in db.runs && db.results.Keys == db0.results.Keys
      && db.runs[run].status == Aggregate(db, run)
      && (forall q :: q in traces && db0.results[q].runId == run ==> db.results[q].status == ClosingStatus(traces[q]))
      && (forall q :: q in db0.results && q !in traces ==> db.results[q] == db0.results[q])
  {
    ExecKeeps(db0, traces, schedule);
    var s := Exec(Start(db0, traces), schedule);
    var run := db0.results[r].runId;
    assert RunOk(s, r);
    forall q | q in s.db.results && s.db.results[q].runId == run
      ensures IsTerminal(s.db.results[q].status)
      ensures q in traces ==> s.db.results[q].status == ClosingStatus(traces[q])
    {
      if q in traces {
        assert AgentOk(s.agents[q], s.db.results[q].status, traces[q]);
      }
    }
    assert AllClosed(s.db, run);
    assert !SomeoneWillLook(s, run);
  }

  /** The aggregate of closed results: done if all are done, failed if all failed, partial if there are both. */
  lemma AggregateMeaning(db: Db, run: RunId)
    requires AllClosed(db, run)
    requires exists r :: r in db.results && db.results[r].runId == run
    ensures Aggregate(db, run) == Done <==>
            forall r :: r in db.results && db.results[r].runId == run ==> db.results[r].status == Done
    ensures Aggregate(db, run) == Failed <==>
            forall r :: r in db.results && db.results[r].runId == run ==> db.results[r].status == Failed
    ensures Aggregate(db, run) == Partial <==>
            (exists r :: r in db.results && db.results[r].runId == run && db.results[r].status == Done) &&
            (exists r :: r in db.results && db.results[r].runId == run && db.results[r].status == Failed)
  {
  }

  // ---------------------------------------------------------------------------------------------
  // Every agent finishes

  /** The statements an agent still executes, at most. */
  function Remaining(a: Agent): nat {
    5 * |a.todo| +
    match a.phase
    case Ready => 0
    case Closing(_) => 4
    case Counting => 3
    case Tallying => 2
    case ClosingRun(_) => 1
  }

  function Turns(schedule: seq<Turn>, r: ResultId): nat {
    if schedule == [] then 0
    else Turns(schedule[..|schedule| - 1], r) + if schedule[|schedule| - 1].agent == r then 1 else 0
  }

  lemma {:induction false} TurnsUseUpStatements(s: System, schedule: seq<Turn>, r: ResultId)
    requires r in s.agents
    ensures var s' := Exec(s, schedule);
      s'.agents.Keys == s.agents.Keys &&
      (Finished(s'.agents[r]) || Remaining(s'.agents[r]) + Turns(schedule, r) <= Remaining(s.agents[r]))
  {
    if schedule != [] {
      hide CountPending, CountOutcomes, UpsertStep;
      TurnsUseUpStatements(s, schedule[..|schedule| - 1], r);
    }
  }

  /** Five turns per message are enough, whatever the other agents do in between. */
  lemma EnoughTurnsFinish(db: Db, traces: map<ResultId, seq<Progress>>, schedule: seq<Turn>, r: ResultId)
    requires r in traces && Turns(schedule, r) >= 5 * |traces[r]|
    ensures var s := Exec(Start(db, traces), schedule); r in s.agents && Finished(s.agents[r])
  {
    TurnsUseUpStatements(Start(db, traces), schedule, r);
  }

  // ---------------------------------------------------------------------------------------------
  // What the step rows hold

  /** The stored messages about one node. */
  function About(sent: seq<Stamped>, n: NodeId): seq<Stamped> {
    if sent == [] then []
    else
      var last := sent[|sent| - 1];
      About(sent[..|sent| - 1], n) + if last.p.nodeId == n then [last] else []
  }

  function Row(db: Db, r: ResultId, n: NodeId): Option<StepRow> {
    if (r, n) in db.steps then Some(db.steps[(r, n)]) else None
  }

  ghost predicate RowsOk(s: System) {
    forall r, n :: r in s.agents ==> Row(s.db, r, n) == Summary(About(s.agents[r].sent, n))
  }

  lemma AboutAppend(sent: seq<Stamped>, m: Stamped, n: NodeId)
    ensures About(sent + [m], n) == if m.p.nodeId == n then About(sent, n) + [m] else About(sent, n)
  {
    assert (sent + [m])[..|sent|] == sent;
  }

  lemma UpsertKeepsRow(db: Db, r: ResultId, sent: seq<Stamped>, m: Stamped, q: ResultId, n: NodeId)
    requires r in db.results && Storable(m.p) && Row(db, r, n) == Summary(About(sent, n))
    ensures var db' := UpsertStep(db, r, m.p, m.at).value;
      && Row(db', r, n) == Summary(About(sent + [m], n))
      && (q != r ==> Row(db', q, n) == Row(db, q, n))
  {
    hide About, Summary;
    AboutAppend(sent, m, n);
    if n == m.p.nodeId {
      SummaryAppend(About(sent, n), m);
    }
  }

  lemma ActKeepsRows(s: System, r: ResultId, now: Time)
    requires RowsOk(s) && r in s.agents && r in s.db.results
    ensures RowsOk(Act(s, r, now))
  {
    hide Summary, About, CountPending, CountOutcomes;
    var s', a := Act(s, r, now), s.agents[r];
    forall q, n | q in s'.agents ensures Row(s'.db, q, n) == Summary(About(s'.agents[q].sent, n)) {
      assert Row(s.db, q, n) == Summary(About(s.agents[q].sent, n));
      if a.phase == Ready && a.todo != [] && Storable(a.todo[0]) {
        hide UpsertStep, Row;
        assert Row(s.db, r, n) == Summary(About(a.sent, n));
        UpsertKeepsRow(s.db, r, a.sent, Stamped(a.todo[0], now), q, n);
        UpsertSucceeds(s.db, r, a.todo[0], now);
      }
    }
  }

  lemma UpsertSucceeds(db: Db, r: ResultId, p: Progress, now: Time)
    requires r in db.results && Storable(p)
    ensures UpsertStep(db, r, p, now).Ok?
  {
  }

  /** Under every schedule, each step row sums up exactly the messages stored for its result and node. */
  lemma {:induction false} RowsSumUpMessages(db0: Db, traces: map<ResultId, seq<Progress>>, schedule: seq<Turn>)
    requires Dispatched(db0, traces)
    ensures RowsOk(Exec(Start(db0, traces), schedule))
  {
    if schedule == [] {
      assert forall n :: About([], n) == [];
    } else {
      hide RowsOk;
      var n := |schedule| - 1;
      RowsSumUpMessages(db0, traces, schedule[..n]);
      ExecKeeps(db0, traces, schedule[..n]);
      var before := Exec(Start(db0, traces), schedule[..n]);
      if schedule[n].agent in before.agents {
        ActKeepsRows(before, schedule[n].agent, schedule[n].at);
      }
    }
  }

  /** A finished agent has stored its whole trace, message for message. */
  lemma FinishedSentAll(db0: Db, traces: map<ResultId, seq<Progress>>, schedule: seq<Turn>, r: ResultId)
    requires Dispatched(db0, traces) && r in traces
    requires var s := Exec(Start(db0, traces), schedule); r in s.agents && Finished(s.agents[r])
    ensures Messages(Exec(Start(db0, traces), schedule).agents[r].sent) == traces[r]
  {
    ExecKeeps(db0, traces, schedule);
    var s := Exec(Start(db0, traces), schedule);
    assert AgentOk(s.agents[r], s.db.results[r].status, traces[r]);
  }

  // ---------------------------------------------------------------------------------------------
  // One call

  /** The statements of one message with no other agent in between. */
  function Handle(s: System, r: ResultId, at: Times): System
    requires r in s.agents
  {
    var s1 := Act(s, r, at.upsert);
    if s1.agents[r].phase == Ready then s1
    else
      var s3 := Act(Act(s1, r, at.close), r, at.close);
      if s3.agents[r].phase == Ready then s3 else Act(Act(s3, r, at.run), r, at.run)
  }

  /** An agent left alone handles a message exactly as one call of persist_script_progress does. */
  lemma AloneIsPersisted(s: System, r: ResultId, at: Times)
    requires r in s.agents && s.agents[r].phase == Ready && s.agents[r].todo != []
    ensures var s' := Handle(s, r, at);
      && s'.agents[r].phase == Ready && s'.agents[r].todo == s.agents[r].todo[1..]
      && (match Persisted(s.db, r, s.agents[r].todo[0], at)
          case Err(_) => s'.db == s.db
          case Ok(db) => s'.db == db)
  {
  }
}
