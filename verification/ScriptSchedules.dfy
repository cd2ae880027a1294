/** What every interleaving of a dispatch with its agents keeps: rows, woken agents and the rest of the program in step,
    and every result at the status of its last event. */
module ScriptSchedules {
  import opened Common
  import opened Script
  import opened ScriptDb
  import opened ScriptProtocol
  import opened ScriptDispatch

  // ---------------------------------------------------------------------------------------------
  // What every schedule keeps

  /** The rows of the run are those of its targets, and agents have rows; other runs' results are untouched. */
  ghost predicate Rows(x: Execution, s: System) {
    && s.agents.Keys <= x.traces.Keys && s.agents.Keys <= s.db.results.Keys && x.run in s.db.runs
    && x.db.results.Keys <= s.db.results.Keys
    && (forall r :: r in s.db.results && r in x.Ids() ==> s.db.results[r].runId == x.run)
    && (forall r :: r in s.db.results && r !in x.Ids() ==> r in x.db.results && s.db.results[r] == x.db.results[r])
  }

  /** What is no longer to be done has been done: results are inserted, agents awake, an unreached run closed. */
  ghost predicate InStep(x: Execution, w: World) {
    && (forall r :: r in x.Ids() ==> Insert(r) in w.todo || r in w.system.db.results)
    && Awake(x, w)
    && (x.targets != [] && x.traces == map[] ==>
          CloseUnsent in w.todo || (x.run in w.system.db.runs && w.system.db.runs[x.run].status == Failed))
  }

  ghost predicate Awake(x: Execution, w: World) {
    forall r :: r in x.traces ==> (Send(r) in w.todo <==> r !in w.system.agents)
  }

  /** Every agent is in step with its trace. */
  ghost predicate AgentsFollow(x: Execution, s: System) {
    forall r :: r in s.agents && r in x.traces ==> AgentOk(s.agents[r], ClosingStatus(x.traces[r]), x.traces[r])
  }

  ghost predicate Kept(x: Execution, w: World) {
    Sound(x, w.todo) && Rows(x, w.system) && InStep(x, w) && AgentsFollow(x, w.system)
  }

  lemma BeginKept(x: Execution)
    requires x.Valid()
    ensures Kept(x, x.Begin())
  {
    ProgramSound(x);
    hide Sound, Program, DistinctTargets, ResultIds, WellClosed;
  }

  /** When a result is sent, marked or failed, its row is there. */
  lemma AlreadyInserted(x: Execution, w: World)
    requires x.Valid() && Kept(x, w) && w.todo != [] && !w.todo[0].Insert? && !w.todo[0].CloseUnsent?
    ensures w.todo[0].result in w.system.db.results && w.todo[0].result in x.Ids()
  {
    ReachedIds(x);
    SoundTail(x, w.todo);
    hide Execution.Valid, Rows, AgentsFollow, Sound;
    var r := w.todo[0].result;
    assert !InOrder(w.todo[0], Insert(r));
  }

  lemma DispatchKeepsRows(x: Execution, w: World, now: Time)
    requires x.Valid() && Kept(x, w) && w.todo != []
    ensures Rows(x, x.Do(w.system, w.todo[0], now))
  {
    if !w.todo[0].Insert? && !w.todo[0].CloseUnsent? {
      AlreadyInserted(x, w);
    }
    SoundTail(x, w.todo);
    hide Execution.Valid, Execution.Ids, InStep, AgentsFollow, Sound;
  }

  lemma DispatchWakes(x: Execution, w: World, now: Time)
    requires Sound(x, w.todo) && Awake(x, w) && w.todo != []
    ensures Awake(x, World(x.Do(w.system, w.todo[0], now), w.todo[1..]))
  {
    SoundTail(x, w.todo);
    hide Sound, Unreached, MarkRunning, StatementOk;
  }

  lemma DispatchKeepsStep(x: Execution, w: World, now: Time)
    requires x.Valid() && Kept(x, w) && w.todo != []
    ensures InStep(x, World(x.Do(w.system, w.todo[0], now), w.todo[1..]))
  {
    SoundTail(x, w.todo);
    DispatchWakes(x, w, now);
    hide Execution.Valid, Execution.Ids, Rows, AgentsFollow, Sound, InOrder, Awake, Unreached;
  }

  lemma StartsOk(trace: seq<Progress>)
    requires WellClosed(trace)
    ensures AgentOk(Agent(trace, Ready, []), ClosingStatus(trace), trace)
  {
    assert Messages([]) == [];
    assert [] + trace == trace;
  }

  lemma DispatchKeepsAgents(x: Execution, w: World, now: Time)
    requires x.Valid() && Kept(x, w) && w.todo != []
    ensures AgentsFollow(x, x.Do(w.system, w.todo[0], now))
  {
    hide Execution.Ids, Rows, InStep, Sound, AgentOk, WellClosed;
    if w.todo[0].Send? && w.todo[0].result in x.traces {
      StartsOk(x.traces[w.todo[0].result]);
    }
  }

  lemma DispatchKept(x: Execution, w: World, now: Time)
    requires x.Valid() && Kept(x, w) && w.todo != []
    ensures Kept(x, x.Next(w, DispatchMove(now)))
  {
    SoundTail(x, w.todo);
    DispatchKeepsRows(x, w, now);
    DispatchKeepsStep(x, w, now);
    DispatchKeepsAgents(x, w, now);
    hide Sound, Rows, InStep, AgentsFollow, Execution.Do;
  }

  /** One statement of an agent keeps its place in the trace. */
  lemma ActFollows(s: System, r: ResultId, now: Time, trace: seq<Progress>)
    requires r in s.agents && r in s.db.results && WellClosed(trace)
    requires AgentOk(s.agents[r], ClosingStatus(trace), trace)
    ensures var s' := Act(s, r, now); r in s'.agents && AgentOk(s'.agents[r], ClosingStatus(trace), trace)
  {
    OwnStep(s, r, now);
    hide Act, AgentOk, WellClosed, MovesOn;
    var a := s.agents[r];
    if a.phase == Ready && a.todo != [] {
      UpsertKeepsAgent(a, ClosingStatus(trace), trace, now);
    } else {
      FollowsOn(a, s.db.results[r].status, Act(s, r, now).agents[r], Act(s, r, now).db.results[r].status, trace);
    }
  }

  lemma FollowsOn(a: Agent, status: Status, a': Agent, status': Status, trace: seq<Progress>)
    requires AgentOk(a, ClosingStatus(trace), trace) && MovesOn(a, status, a', status')
    ensures AgentOk(a', ClosingStatus(trace), trace)
  {
    hide Messages, ClosingStatus;
  }

  /** s' differs from s as after one statement of r, which writes results and runs but neither adds nor removes any. */
  ghost predicate OneActed(s: System, s': System, r: ResultId) {
    && s'.agents.Keys == s.agents.Keys && (forall q :: q in s.agents && q != r ==> s'.agents[q] == s.agents[q])
    && s'.db.results.Keys == s.db.results.Keys && s'.db.runs.Keys == s.db.runs.Keys
    && (forall q :: q in s.db.results ==> s'.db.results[q].runId == s.db.results[q].runId)
    && (forall q :: q in s.db.results && q != r ==> s'.db.results[q] == s.db.results[q])
  }

  lemma ActIsOne(s: System, r: ResultId, now: Time)
    requires r in s.agents
    ensures OneActed(s, Act(s, r, now), r)
  {
    ActTouchesOne(s, r, now);
    hide Act;
  }

  lemma ActKeepsRows(x: Execution, s: System, s': System, r: ResultId)
    requires Rows(x, s) && OneActed(s, s', r) && r in x.Ids()
    ensures Rows(x, s')
  {
    hide Execution.Ids;
  }

  lemma ActKeepsStep(x: Execution, w: World, s': System, r: ResultId)
    requires InStep(x, w) && OneActed(w.system, s', r) && r in x.traces
    ensures InStep(x, World(s', w.todo))
  {
    hide Execution.Ids;
  }

  lemma ActKeepsFollowing(x: Execution, s: System, s': System, r: ResultId)
    requires AgentsFollow(x, s) && OneActed(s, s', r) && r in x.traces
    requires r in s'.agents ==> AgentOk(s'.agents[r], ClosingStatus(x.traces[r]), x.traces[r])
    ensures AgentsFollow(x, s')
  {
    hide AgentOk, ClosingStatus;
  }

  lemma AgentKept(x: Execution, w: World, r: ResultId, now: Time)
    requires x.Valid() && Kept(x, w) && r in w.system.agents
    ensures Kept(x, x.Next(w, AgentMove(r, now)))
  {
    var s, s' := w.system, Act(w.system, r, now);
    ReachedIds(x);
    ActIsOne(s, r, now);
    ActFollows(s, r, now, x.traces[r]);
    hide Act, AgentOk, WellClosed, Sound, Execution.Ids, ClosingStatus, OneActed;
    ActKeepsRows(x, s, s', r);
    ActKeepsStep(x, w, s', r);
    ActKeepsFollowing(x, s, s', r);
  }

  /** Every schedule keeps the dispatch, the rows and the agents in step. */
  lemma {:induction false} AtKept(x: Execution, i: nat)
    requires x.Valid() && i <= |x.moves|
    ensures Kept(x, x.At(i))
  {
    hide Kept, Execution.Valid, Execution.Begin, Program, Execution.Do, Act;
    if i == 0 {
      BeginKept(x);
    } else {
      AtKept(x, i - 1);
      var w := x.At(i - 1);
      match x.moves[i - 1]
      case DispatchMove(at) =>
        if w.todo != [] {
          DispatchKept(x, w, at);
        }
      case AgentMove(r, at) =>
        if r in w.system.agents {
          AgentKept(x, w, r, at);
        }
    }
  }

  // ---------------------------------------------------------------------------------------------
  // The status of a result is its last event's

  lemma EndedStep(x: Execution, i: nat, r: ResultId)
    requires i < |x.moves|
    ensures x.Ended(i + 1, r) <==>
            x.Closes(i, r) || x.Executes(i, Fail(r)) || (x.Ended(i, r) && !x.Executes(i, Mark(r)))
  {
    hide Execution.Closes, Execution.Executes;
    if j :| 0 <= j < i && (x.Closes(j, r) || x.Executes(j, Fail(r))) &&
            forall k :: j < k < i ==> !x.Executes(k, Mark(r))
    {
      if !x.Executes(i, Mark(r)) {
        assert forall k :: j < k < i + 1 ==> !x.Executes(k, Mark(r));
      }
    }
  }

  /** The row of r is at its final status if r has ended, and open if not. */
  ghost predicate StatusOk(x: Execution, results: map<ResultId, ResultRow>, r: ResultId, ended: bool) {
    if r !in results then !ended
    else if ended then results[r].status == x.Final(r)
    else IsOpen(results[r].status)
  }

  lemma DispatchStatus(x: Execution, w: World, r: ResultId, now: Time, ended: bool)
    requires x.Valid() && Kept(x, w) && w.todo != [] && StatusOk(x, w.system.db.results, r, ended)
    ensures var st := w.todo[0];
      StatusOk(x, x.Do(w.system, st, now).db.results, r, st == Fail(r) || (ended && st != Mark(r)))
  {
    if !w.todo[0].Insert? && !w.todo[0].CloseUnsent? {
      AlreadyInserted(x, w);
    }
    SoundTail(x, w.todo);
    hide Execution.Valid, Execution.Ids, InStep, Rows, AgentsFollow, Sound, ClosingStatus;
  }

  lemma AgentStatus(x: Execution, w: World, q: ResultId, r: ResultId, now: Time, ended: bool)
    requires x.Valid() && Kept(x, w) && q in w.system.agents && StatusOk(x, w.system.db.results, r, ended)
    ensures StatusOk(x, Act(w.system, q, now).db.results, r,
                     (q == r && w.system.agents[q].phase.Closing?) || ended)
  {
    ActTouchesOne(w.system, q, now);
    assert AgentOk(w.system.agents[q], ClosingStatus(x.traces[q]), x.traces[q]);
    OwnStep(w.system, q, now);
    hide Act, Execution.Valid, Execution.Ids, InStep, AgentsFollow, Sound, ClosingStatus;
  }

  lemma {:induction false} StatusAt(x: Execution, i: nat, r: ResultId)
    requires x.Valid() && i <= |x.moves|
    ensures r in x.Ids() ==> StatusOk(x, x.At(i).system.db.results, r, x.Ended(i, r))
  {
    hide StatusOk, Kept, Execution.Valid, Execution.Ended, Execution.Do, Act, Execution.Ids, Execution.Begin;
    if r !in x.Ids() {
    } else if i == 0 {
      NothingEnded(x, r);
    } else {
      StatusAt(x, i - 1, r);
      AtKept(x, i - 1);
      EndedStep(x, i - 1, r);
      var w := x.At(i - 1);
      match x.moves[i - 1]
      case DispatchMove(at) =>
        if w.todo != [] {
          DispatchStatus(x, w, r, at, x.Ended(i - 1, r));
        }
      case AgentMove(q, at) =>
        if q in w.system.agents {
          AgentStatus(x, w, q, r, at, x.Ended(i - 1, r));
        }
    }
  }

  lemma NothingEnded(x: Execution, r: ResultId)
    requires x.Valid() && r in x.Ids()
    ensures StatusOk(x, x.At(0).system.db.results, r, x.Ended(0, r))
  {
  }

  /** An unreached result is failed in its turn, and stays so. */
  lemma {:induction false} UnreachedEnds(x: Execution, i: nat, r: ResultId)
    requires x.Valid() && i <= |x.moves| && r in x.Ids() && r !in x.traces
    ensures Fail(r) in x.At(i).todo || x.Ended(i, r)
  {
    hide Kept, Execution.Valid, Execution.Ended, Execution.Do, Act, Execution.Ids, Execution.Begin;
    if i == 0 {
      FailIsPlanned(x, r);
    } else {
      UnreachedEnds(x, i - 1, r);
      EndedStep(x, i - 1, r);
      NeverMarked(x, i - 1, r);
    }
  }

  lemma FailIsPlanned(x: Execution, r: ResultId)
    requires x.Valid() && r in x.Ids() && r !in x.traces
    ensures Fail(r) in x.At(0).todo
  {
    ProgramSound(x);
  }

  lemma NeverMarked(x: Execution, i: nat, r: ResultId)
    requires x.Valid() && i < |x.moves| && r !in x.traces
    ensures !x.Executes(i, Mark(r))
  {
    AtKept(x, i);
    if x.At(i).todo != [] {
      SoundTail(x, x.At(i).todo);
    }
  }

  /** The aggregate of the rows is what the ended results add up to. */
  lemma AggregateIsSeen(x: Execution, i: nat)
    requires x.Valid() && i <= |x.moves|
    ensures Aggregate(x.At(i).system.db, x.run) == x.Seen(i)
    ensures AllClosed(x.At(i).system.db, x.run) <==>
            forall r :: r in x.Ids() && r in x.At(i).system.db.results ==> x.Ended(i, r)
  {
    var db := x.At(i).system.db;
    forall r | r in x.Ids()
      ensures StatusOk(x, db.results, r, x.Ended(i, r)) && IsTerminal(x.Final(r))
    {
      StatusAt(x, i, r);
      FinalIsTerminal(x, r);
    }
    AtKept(x, i);
    SameRun(x, db, x.At(i).system);
    hide Execution.At, Execution.Ended, Execution.Valid, Execution.Ids, Kept, Execution.Final;
    forall status | status == Done || status == Failed
      ensures x.Saw(i, status) <==>
              exists r :: r in db.results && db.results[r].runId == x.run && db.results[r].status == status
    {
    }
  }

  lemma FinalIsTerminal(x: Execution, r: ResultId)
    requires x.Valid()
    ensures IsTerminal(x.Final(r))
  {
    if r in x.traces {
      assert WellClosed(x.traces[r]);
    }
  }

  lemma SameRun(x: Execution, db: Db, s: System)
    requires x.Valid() && Rows(x, s) && db == s.db
    ensures forall r :: r in db.results ==> (db.results[r].runId == x.run <==> r in x.Ids())
  {
  }

  // ---------------------------------------------------------------------------------------------
  // The times of a result are those of its last events

  /** Move j closes result r or fails it. */
  predicate Finishes(x: Execution, j: nat, r: ResultId) {
    x.Closes(j, r) || x.Executes(j, Fail(r))
  }

  /** Move j marks result r running or fails it. */
  predicate Begins(x: Execution, j: nat, r: ResultId) {
    x.Executes(j, Mark(r)) || x.Executes(j, Fail(r))
  }

  /** What one move does to the times and the error of a row that is there. */
  lemma TimesStep(x: Execution, i: nat, r: ResultId)
    requires x.Valid() && i < |x.moves| && r in x.Ids() && r in x.At(i).system.db.results
    ensures r in x.At(i + 1).system.db.results
    ensures var before, after := x.At(i).system.db.results[r], x.At(i + 1).system.db.results[r];
      && after.finishedAt == (if Finishes(x, i, r) then Some(x.moves[i].at) else before.finishedAt)
      && after.startedAt == (if Begins(x, i, r) then Some(x.moves[i].at) else before.startedAt)
      && after.error == (if x.Executes(i, Fail(r)) then Some("Agente não conectado.") else before.error)
  {
    var w := x.At(i);
    if x.moves[i].AgentMove? {
      hide Execution.Valid, Execution.Ids, Act;
      AgentTimes(w.system, x.moves[i].agent, x.moves[i].at, r);
    } else if w.todo != [] {
      hide Execution.Valid, Execution.Ids, Act, Execution.Do;
      StatementTimes(x, w.system, w.todo[0], x.moves[i].at, r);
    }
  }

  /** What a statement of the dispatch does to a row. */
  lemma StatementTimes(x: Execution, s: System, st: Statement, now: Time, r: ResultId)
    requires r in s.db.results
    ensures r in x.Do(s, st, now).db.results
    ensures var row, after := s.db.results[r], x.Do(s, st, now).db.results[r];
      && after.finishedAt == (if st == Fail(r) then Some(now) else row.finishedAt)
      && after.startedAt == (if st == Mark(r) || st == Fail(r) then Some(now) else row.startedAt)
      && after.error == (if st == Fail(r) then Some("Agente não conectado.") else row.error)
  {
  }

  /** What any agent's move does to a row. */
  lemma AgentTimes(s: System, q: ResultId, now: Time, r: ResultId)
    requires r in s.db.results
    ensures var row, after := s.db.results[r], (if q in s.agents then Act(s, q, now) else s).db.results;
      r in after && after[r] == if q == r && q in s.agents && s.agents[q].phase.Closing?
                                then row.(status := s.agents[q].phase.result, finishedAt := Some(now)) else row
  {
    if q in s.agents {
      ActTouchesOne(s, q, now);
      if q == r {
        ActTimes(s, r, now);
      }
    }
    hide Act;
  }

  lemma ActTimes(s: System, r: ResultId, now: Time)
    requires r in s.agents && r in s.db.results
    ensures var row, after := s.db.results[r], Act(s, r, now).db.results;
      r in after && after[r] == if s.agents[r].phase.Closing?
                                then row.(status := s.agents[r].phase.result, finishedAt := Some(now)) else row
  {
    hide CountPending, CountOutcomes, MergedStep, InsertedStep;
  }

  /** What one move does to a row that is not there: nothing, or it inserts it without times. */
  lemma FirstTimes(x: Execution, i: nat, r: ResultId)
    requires x.Valid() && i < |x.moves| && r in x.Ids() && r !in x.At(i).system.db.results
    ensures !Finishes(x, i, r) && !Begins(x, i, r)
    ensures r in x.At(i + 1).system.db.results ==>
      x.At(i + 1).system.db.results[r] == ResultRow(x.run, Pending, None, None, None)
  {
    AtKept(x, i);
    var w := x.At(i);
    if w.todo != [] && !w.todo[0].Insert? && !w.todo[0].CloseUnsent? {
      AlreadyInserted(x, w);
    }
    if x.moves[i].AgentMove? && x.moves[i].agent in w.system.agents {
      ActTouchesOne(w.system, x.moves[i].agent, x.moves[i].at);
    }
    hide Act, Execution.Valid, Execution.Ids, Sound, InStep, AgentsFollow;
  }

  /** A row that is not there has had no events. */
  lemma {:induction false} NoEventsYet(x: Execution, i: nat, r: ResultId)
    requires x.Valid() && i <= |x.moves| && r in x.Ids() && r !in x.At(i).system.db.results
    ensures forall k :: 0 <= k < i ==> !Finishes(x, k, r) && !Begins(x, k, r)
  {
    hide *;
    if i > 0 {
      if r in x.At(i - 1).system.db.results {
        TimesStep(x, i - 1, r);
      } else {
        FirstTimes(x, i - 1, r);
        NoEventsYet(x, i - 1, r);
      }
    }
  }

  /** Under every interleaving a result was finished by its last close, or by being failed, at that time, and is not
      finished without one, even if it has been marked running since. */
  lemma {:induction false} FinishedByLastClose(x: Execution, i: nat, r: ResultId) returns (j: Option<nat>)
    requires x.Valid() && i <= |x.moves| && r in x.Ids() && r in x.At(i).system.db.results
    ensures j.Some? ==> j.value < i && j.value < |x.moves| && Finishes(x, j.value, r)
    ensures forall k: nat :: (j.Some? ==> j.value < k) && k < i ==> !Finishes(x, k, r)
    ensures x.At(i).system.db.results[r].finishedAt == if j.Some? then Some(x.moves[j.value].at) else None
  {
    hide *;
    RowsComeLater(x, i, r);
    if r in x.At(i - 1).system.db.results {
      TimesStep(x, i - 1, r);
      if Finishes(x, i - 1, r) {
        j := Some(i - 1);
      } else {
        j := FinishedByLastClose(x, i - 1, r);
      }
    } else {
      FirstTimes(x, i - 1, r);
      NoEventsYet(x, i - 1, r);
      j := None;
    }
  }

  lemma RowsComeLater(x: Execution, i: nat, r: ResultId)
    requires x.Valid() && i <= |x.moves| && r in x.Ids() && r in x.At(i).system.db.results
    ensures i > 0
  {
  }

  /** Likewise a result was started when it was last marked running, or failed. */
  lemma {:induction false} StartedByMark(x: Execution, i: nat, r: ResultId) returns (j: Option<nat>)
    requires x.Valid() && i <= |x.moves| && r in x.Ids() && r in x.At(i).system.db.results
    ensures j.Some? ==> j.value < i && j.value < |x.moves| && Begins(x, j.value, r)
    ensures forall k: nat :: (j.Some? ==> j.value < k) && k < i ==> !Begins(x, k, r)
    ensures x.At(i).system.db.results[r].startedAt == if j.Some? then Some(x.moves[j.value].at) else None
  {
    hide *;
    RowsComeLater(x, i, r);
    if r in x.At(i - 1).system.db.results {
      TimesStep(x, i - 1, r);
      if Begins(x, i - 1, r) {
        j := Some(i - 1);
      } else {
        j := StartedByMark(x, i - 1, r);
      }
    } else {
      FirstTimes(x, i - 1, r);
      NoEventsYet(x, i - 1, r);
      j := None;
    }
  }

  // ---------------------------------------------------------------------------------------------
  // The dispatch left alone

  /** The row of a target when nobody but the dispatch has acted. */
  ghost predicate AloneRow(x: Execution, w: World, t: Target, now: Time) {
    var r, results := t.result, w.system.db.results;
    var last := if t.connected then Mark(r) else Fail(r);
    if Insert(r) in w.todo then r !in results && last in w.todo
    else
      && r in results
      && results[r] == if last in w.todo then ResultRow(x.run, Pending, None, None, None)
                       else if t.connected then ResultRow(x.run, Running, None, Some(now), None)
                       else ResultRow(x.run, Failed, Some("Agente não conectado."), Some(now), Some(now))
  }

  /** The other tables, and the agents, when nobody but the dispatch has acted. */
  ghost predicate AloneRest(x: Execution, w: World, now: Time) {
    && w.system.db.steps == x.db.steps
    && w.system.db.runs == x.db.runs[x.run := if x.targets != [] && x.traces == map[] && CloseUnsent !in w.todo
                                              then RunRow(Failed, Some(now)) else RunRow(Running, None)]
    && (forall r :: r in w.system.agents ==> r in x.traces && w.system.agents[r] == Agent(x.traces[r], Ready, []))
  }

  lemma AloneRowStep(x: Execution, w: World, t: Target, now: Time)
    requires x.Valid() && Kept(x, w) && w.todo != [] && t in x.targets && AloneRow(x, w, t, now)
    ensures AloneRow(x, World(x.Do(w.system, w.todo[0], now), w.todo[1..]), t, now)
  {
    ReachedTarget(x, t);
    SoundTail(x, w.todo);
    var st := w.todo[0];
    hide Execution.Valid, Execution.Ids, Rows, InStep, AgentsFollow, Sound;
    if !st.CloseUnsent? && st.result == t.result {
      OwnRowStep(x, w, t, now);
    } else {
      OtherRowStep(x, w, t, now);
    }
  }

  lemma OwnRowStep(x: Execution, w: World, t: Target, now: Time)
    requires w.todo != [] && AloneRow(x, w, t, now) && StatementOk(x, w.todo[0])
    requires !w.todo[0].CloseUnsent? && w.todo[0].result == t.result && (t.connected <==> t.result in x.traces)
    requires forall st :: st in w.todo[1..] ==> InOrder(w.todo[0], st)
    requires forall st :: st in w.todo <==> st == w.todo[0] || st in w.todo[1..]
    ensures AloneRow(x, World(x.Do(w.system, w.todo[0], now), w.todo[1..]), t, now)
  {
    hide Execution.Ids;
    assert InOrder(w.todo[0], Insert(t.result)) || Insert(t.result) !in w.todo[1..];
  }

  lemma OtherRowStep(x: Execution, w: World, t: Target, now: Time)
    requires w.todo != [] && AloneRow(x, w, t, now)
    requires w.todo[0].CloseUnsent? || w.todo[0].result != t.result
    requires forall st :: st in w.todo <==> st == w.todo[0] || st in w.todo[1..]
    ensures AloneRow(x, World(x.Do(w.system, w.todo[0], now), w.todo[1..]), t, now)
  {
  }

  lemma AloneRestStep(x: Execution, w: World, now: Time)
    requires Kept(x, w) && w.todo != [] && AloneRest(x, w, now)
    ensures AloneRest(x, World(x.Do(w.system, w.todo[0], now), w.todo[1..]), now)
  {
    SoundTail(x, w.todo);
    hide Execution.Ids, Rows, InStep, AgentsFollow, Sound, Unreached;
  }

  ghost predicate Alone(x: Execution, w: World, now: Time) {
    AloneRest(x, w, now) && forall t :: t in x.targets ==> AloneRow(x, w, t, now)
  }

  lemma BeginAlone(x: Execution, now: Time)
    requires x.Valid()
    ensures Alone(x, x.Begin(), now)
  {
    ProgramSound(x);
    hide Sound, Program, DistinctTargets, WellClosed;
    forall t | t in x.targets ensures AloneRow(x, x.Begin(), t, now) {
      ReachedTarget(x, t);
    }
  }

  lemma {:induction false} AloneAt(x: Execution, i: nat, now: Time)
    requires x.Valid() && i <= |x.moves| && i <= |Program(x.targets)|
    requires forall m :: m in x.moves ==> m == DispatchMove(now)
    ensures Alone(x, x.At(i), now) && |x.At(i).todo| == |Program(x.targets)| - i
  {
    hide AloneRow, AloneRest, Kept, Execution.Do, Execution.Valid, Program;
    if i == 0 {
      BeginAlone(x, now);
    } else {
      AloneAt(x, i - 1, now);
      AtKept(x, i - 1);
      var w := x.At(i - 1);
      assert x.moves[i - 1] in x.moves;
      AloneRestStep(x, w, now);
      forall t | t in x.targets ensures AloneRow(x, x.At(i), t, now) {
        AloneRowStep(x, w, t, now);
      }
    }
  }

  /** With no agent's move in between, the program does what the handler's loops do, and leaves the agents at the start
      of their traces: the state from which the aggregation of a finished dispatch starts. */
  lemma DispatchAlone(x: Execution, now: Time)
    requires x.Valid() && |x.moves| == |Program(x.targets)| && forall m :: m in x.moves ==> m == DispatchMove(now)
    ensures var w := x.At(|x.moves|);
      && AfterDispatch(x.db, w.system.db, x.run, x.targets, now)
      && w == World(Start(w.system.db, x.traces), [])
  {
    var n := |x.moves|;
    AloneAt(x, n, now);
    AtKept(x, n);
    hide Execution.At, Execution.Valid, Program, Rows, InStep, Alone, Sound, AgentsFollow;
    AloneAgents(x, x.At(n), now);
    AloneTables(x, x.At(n), now);
  }

  lemma AloneAgents(x: Execution, w: World, now: Time)
    requires Rows(x, w.system) && InStep(x, w) && Alone(x, w, now) && w.todo == []
    ensures w == World(Start(w.system.db, x.traces), [])
  {
    hide Sound, AgentsFollow, AloneRow;
    var agents := Start(w.system.db, x.traces).agents;
    assert forall r :: r in x.traces <==> r in w.system.agents;
    assert agents.Keys == w.system.agents.Keys;
    assert forall r :: r in agents ==> agents[r] == w.system.agents[r];
  }

  lemma AloneTables(x: Execution, w: World, now: Time)
    requires x.Valid() && Kept(x, w) && Alone(x, w, now) && w.todo == []
    ensures AfterDispatch(x.db, w.system.db, x.run, x.targets, now)
  {
    hide Execution.Valid, Kept, Alone, ResultIds, AloneRow;
    AloneRuns(x, w, now);
    AloneKeys(x, w, now);
    AloneRowsDone(x, w, now);
  }

  lemma AloneRuns(x: Execution, w: World, now: Time)
    requires x.Valid() && Alone(x, w, now) && w.todo == []
    ensures w.system.db.steps == x.db.steps
    ensures w.system.db.runs == x.db.runs[x.run := if x.targets != [] && (forall t :: t in x.targets ==> !t.connected)
                                                   then RunRow(Failed, Some(now)) else RunRow(Running, None)]
  {
    NoneReached(x);
  }

  lemma AloneKeys(x: Execution, w: World, now: Time)
    requires x.Valid() && Kept(x, w) && Alone(x, w, now) && w.todo == []
    ensures w.system.db.results.Keys == x.db.results.Keys + ResultIds(x.targets)
    ensures forall r :: r in x.db.results ==> r !in ResultIds(x.targets) && w.system.db.results[r] == x.db.results[r]
  {
    hide Sound, AgentsFollow, AloneRow;
    forall r ensures r in w.system.db.results <==> r in x.db.results || r in ResultIds(x.targets) {
      if r in ResultIds(x.targets) {
        var t :| t in x.targets && t.result == r;
        AloneRowDone(x, w, t, now);
      } else {
        assert r !in x.Ids();
      }
    }
  }

  lemma AloneRowsDone(x: Execution, w: World, now: Time)
    requires Alone(x, w, now) && w.todo == []
    ensures forall t :: t in x.targets ==>
      t.result in w.system.db.results && w.system.db.results[t.result] ==
        if t.connected then ResultRow(x.run, Running, None, Some(now), None)
        else ResultRow(x.run, Failed, Some("Agente não conectado."), Some(now), Some(now))
  {
    forall t | t in x.targets ensures AloneRow(x, w, t, now) {
    }
  }

  lemma AloneRowDone(x: Execution, w: World, t: Target, now: Time)
    requires AloneRow(x, w, t, now) && w.todo == []
    ensures t.result in w.system.db.results && w.system.db.results[t.result] ==
            if t.connected then ResultRow(x.run, Running, None, Some(now), None)
            else ResultRow(x.run, Failed, Some("Agente não conectado."), Some(now), Some(now))
  {
  }
}
