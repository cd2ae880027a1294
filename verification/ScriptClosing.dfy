/** Exactly when a dispatched run is closed with its aggregate, whatever the interleaving of the dispatch and its
    agents. */
module ScriptClosing {
  import opened Common
  import opened Script
  import opened ScriptDb
  import opened ScriptProtocol
  import opened ScriptDispatch
  import opened ScriptSchedules

  // ---------------------------------------------------------------------------------------------
  // Who closes the run, and with what

  /** An agent that is awake is changed by its own moves only. */
  lemma OthersKeepAgent(x: Execution, i: nat, r: ResultId)
    requires x.Valid() && i < |x.moves| && r in x.traces && !x.Acts(i, r)
    ensures r in x.At(i).system.agents ==>
      r in x.At(i + 1).system.agents && x.At(i + 1).system.agents[r] == x.At(i).system.agents[r]
    ensures r !in x.At(i).system.agents && r in x.At(i + 1).system.agents ==>
      x.At(i + 1).system.agents[r].phase == Ready
  {
    AtKept(x, i);
    var w := x.At(i);
    assert r in w.system.agents ==> Send(r) !in w.todo;
    hide Kept, Execution.Valid;
    if x.moves[i].AgentMove? && x.moves[i].agent in w.system.agents {
      ActTouchesOne(w.system, x.moves[i].agent, x.moves[i].at);
      hide Act;
    }
  }

  lemma MoveKinds(x: Execution, i: nat, r: ResultId)
    ensures x.Acts(i, r) ==> i < |x.moves| && r in x.At(i).system.agents
    ensures x.Closes(i, r) <==> x.Acts(i, r) && x.At(i).system.agents[r].phase.Closing?
    ensures x.Counts(i, r) <==> x.Acts(i, r) && x.At(i).system.agents[r].phase.Counting?
    ensures x.Tallies(i, r) <==> x.Acts(i, r) && x.At(i).system.agents[r].phase.Tallying?
    ensures x.ClosesRun(i, r) <==> x.Acts(i, r) && x.At(i).system.agents[r].phase.ClosingRun?
  {
  }

  /** What an agent's own move does to its phase. */
  lemma OwnMove(x: Execution, i: nat, r: ResultId)
    requires x.Acts(i, r) && r in x.At(i).system.db.results
    ensures r in x.At(i + 1).system.agents
    ensures var w, a' := x.At(i), x.At(i + 1).system.agents[r];
      && (a'.phase.Counting? <==> x.Closes(i, r))
      && (a'.phase.Tallying? <==> x.Counts(i, r) && CountPending(w.system.db, r).0 > 0 &&
                                  CountPending(w.system.db, r).1 == 0)
      && (a'.phase.ClosingRun? <==> x.Tallies(i, r))
      && (x.Tallies(i, r) ==>
            a'.phase.run == RunStatus(CountOutcomes(w.system.db, r).0, CountOutcomes(w.system.db, r).1))
  {
    hide CountPending, CountOutcomes, RunStatus, UpsertStep, CloseResult, CloseRun;
  }

  lemma AgentHasRow(x: Execution, i: nat, r: ResultId)
    requires x.Valid() && i <= |x.moves| && r in x.At(i).system.agents
    ensures r in x.traces && r in x.Ids() && r in x.At(i).system.db.results && x.run in x.At(i).system.db.runs
    ensures x.At(i).system.db.results[r].runId == x.run
    ensures AgentOk(x.At(i).system.agents[r], ClosingStatus(x.traces[r]), x.traces[r])
  {
    AtKept(x, i);
    ReachedIds(x);
    hide Execution.Valid, Execution.At, Execution.Ids, Sound, InStep, AgentOk;
  }

  /** Move t is the last one of agent r before move i. */
  ghost predicate IsLastAct(x: Execution, t: nat, i: nat, r: ResultId) {
    t < i && x.Acts(t, r) && forall k :: t < k < i ==> !x.Acts(k, r)
  }

  lemma LastActStays(x: Execution, t: nat, i: nat, r: ResultId)
    ensures IsLastAct(x, t, i, r) && !x.Acts(i, r) ==> IsLastAct(x, t, i + 1, r)
    ensures x.Acts(i, r) ==> IsLastAct(x, i, i + 1, r)
  {
    hide Execution.Acts;
  }

  lemma AwakeLater(x: Execution, i: nat, r: ResultId)
    requires i <= |x.moves| && r in x.At(i).system.agents
    ensures i > 0
  {
  }

  /** An agent in the middle of a message got there by its last move. */
  lemma {:induction false} LastAct(x: Execution, i: nat, r: ResultId) returns (t: nat)
    requires x.Valid() && i <= |x.moves| && r in x.At(i).system.agents && x.At(i).system.agents[r].phase != Ready
    ensures IsLastAct(x, t, i, r)
    ensures t < i && r in x.At(t + 1).system.agents && x.At(t + 1).system.agents[r] == x.At(i).system.agents[r]
  {
    hide *;
    AgentHasRow(x, i, r);
    AwakeLater(x, i, r);
    if x.Acts(i - 1, r) {
      t := i - 1;
    } else {
      OthersKeepAgent(x, i - 1, r);
      t := LastAct(x, i - 1, r);
    }
    LastActStays(x, t, i - 1, r);
  }

  /** An agent in the middle of a message moves again, if all finish. */
  lemma {:induction false} NextAct(x: Execution, i: nat, r: ResultId) returns (k: nat)
    requires x.Valid() && x.Over() && i <= |x.moves| && r in x.traces
    requires r in x.At(i).system.agents && x.At(i).system.agents[r].phase != Ready
    ensures i <= k < |x.moves| && x.Acts(k, r)
    ensures r in x.At(k).system.agents && x.At(k).system.agents[r] == x.At(i).system.agents[r]
    decreases |x.moves| - i
  {
    hide Execution.Valid, Execution.At, Execution.Acts;
    assert i < |x.moves|;
    k := i;
    if !x.Acts(k, r) {
      OthersKeepAgent(x, k, r);
      k := NextAct(x, k + 1, r);
    }
  }

  /** An agent about to close the run writes what it saw when it tallied. */
  lemma Tallied(x: Execution, i: nat, r: ResultId) returns (t: nat)
    requires x.Valid() && i <= |x.moves| && r in x.At(i).system.agents && x.At(i).system.agents[r].phase.ClosingRun?
    ensures x.Tallies(t, r) && IsLastAct(x, t, i, r)
    ensures x.At(i).system.agents[r].phase.run == x.Seen(t)
  {
    hide *;
    t := LastAct(x, i, r);
    ActorIsAgent(x, t, i, r);
    AgentHasRow(x, t, r);
    OwnMove(x, t, r);
    TallyIsAggregate(x.At(t).system.db, r);
    AggregateIsSeen(x, t);
  }

  lemma ActorIsAgent(x: Execution, t: nat, i: nat, r: ResultId)
    requires IsLastAct(x, t, i, r)
    ensures t < i && t < |x.moves| && x.Acts(t, r) && r in x.At(t).system.agents
  {
  }

  /** An agent about to tally has counted no open result: every row there was then had ended. */
  lemma Counted(x: Execution, i: nat, r: ResultId) returns (c: nat)
    requires x.Valid() && i <= |x.moves| && r in x.At(i).system.agents && x.At(i).system.agents[r].phase.Tallying?
    ensures c < i && x.Counts(c, r) && AllClosed(x.At(c).system.db, x.run)
  {
    hide *;
    c := LastAct(x, i, r);
    ActorIsAgent(x, c, i, r);
    AgentHasRow(x, c, r);
    OwnMove(x, c, r);
    CountTells(x, c, r);
  }

  /** The count of open results is zero exactly when all rows of the run are closed. */
  lemma CountTells(x: Execution, i: nat, r: ResultId)
    requires x.Valid() && i <= |x.moves| && r in x.At(i).system.agents
    ensures r in x.At(i).system.db.results && CountPending(x.At(i).system.db, r).0 > 0
    ensures CountPending(x.At(i).system.db, r).1 == 0 <==> AllClosed(x.At(i).system.db, x.run)
  {
    var db := x.At(i).system.db;
    AgentHasRow(x, i, r);
    forall q | q in db.results && db.results[q].runId == db.results[r].runId
      ensures IsOpen(db.results[q].status) || IsTerminal(db.results[q].status)
    {
      AtKept(x, i);
      SameRun(x, db, x.At(i).system);
      StatusAt(x, i, q);
      FinalIsTerminal(x, q);
      hide Execution.At, Execution.Valid, Execution.Final, Execution.Ended, Execution.Ids;
    }
    PendingCountIsZero(db, r);
  }

  lemma ActTouchesRun(s: System, r: ResultId, now: Time)
    requires r in s.agents && s.agents[r].phase.ClosingRun? && r in s.db.results && s.db.results[r].runId in s.db.runs
    ensures Act(s, r, now).db.runs == s.db.runs[s.db.results[r].runId := RunRow(s.agents[r].phase.run, Some(now))]
  {
  }

  lemma DispatchKeepsRun(x: Execution, w: World, now: Time)
    requires Sound(x, w.todo) && x.traces != map[] && w.todo != [] && x.run in w.system.db.runs
    ensures x.Do(w.system, w.todo[0], now).db.runs == w.system.db.runs
  {
    SoundTail(x, w.todo);
    hide Sound;
  }

  lemma AgentWritesRun(x: Execution, s: System, r: ResultId, now: Time)
    requires r in s.agents && r in s.db.results && s.db.results[r].runId == x.run && x.run in s.db.runs
    ensures x.run in Act(s, r, now).db.runs
    ensures if s.agents[r].phase.ClosingRun?
            then Act(s, r, now).db.runs[x.run] == RunRow(s.agents[r].phase.run, Some(now))
            else Act(s, r, now).db.runs == s.db.runs
  {
    ActTouchesOne(s, r, now);
    if s.agents[r].phase.ClosingRun? {
      ActTouchesRun(s, r, now);
    }
    hide Act;
  }

  lemma RunIsThere(x: Execution, i: nat)
    requires x.Valid() && i <= |x.moves|
    ensures x.run in x.At(i).system.db.runs && Sound(x, x.At(i).todo)
  {
    AtKept(x, i);
  }

  /** What one move does to the run row: an agent that closes the run writes its status, and nothing else does. */
  lemma RunRowStep(x: Execution, i: nat)
    requires x.Valid() && x.traces != map[] && i < |x.moves|
    ensures x.run in x.At(i).system.db.runs && x.run in x.At(i + 1).system.db.runs
    ensures forall q :: x.ClosesRun(i, q) ==>
      q in x.At(i).system.agents && x.At(i).system.agents[q].phase.ClosingRun? &&
      x.At(i + 1).system.db.runs[x.run] == RunRow(x.At(i).system.agents[q].phase.run, Some(x.moves[i].at))
    ensures (forall q :: !x.ClosesRun(i, q)) ==>
      x.At(i + 1).system.db.runs[x.run] == x.At(i).system.db.runs[x.run]
  {
    RunIsThere(x, i);
    RunIsThere(x, i + 1);
    hide Execution.Valid, Sound, Act, Execution.Do, Execution.Begin;
    var w := x.At(i);
    match x.moves[i]
    case DispatchMove(at) =>
      if w.todo != [] {
        DispatchKeepsRun(x, w, at);
      }
    case AgentMove(q, at) =>
      if q in w.system.agents {
        AgentHasRow(x, i, q);
        AgentWritesRun(x, w.system, q, at);
        assert x.ClosesRun(i, q) <==> w.system.agents[q].phase.ClosingRun?;
      }
  }

  /** Before move i no agent has closed the run. */
  ghost predicate NeverClosed(x: Execution, i: nat) {
    forall k, q :: 0 <= k < i ==> !x.ClosesRun(k, q)
  }

  /** The run row holds what the last agent to close the run had seen when it tallied, and the time of that close. */
  ghost predicate HoldsSeen(x: Execution, i: nat)
    requires i <= |x.moves| && x.run in x.At(i).system.db.runs
  {
    exists t: nat, j: nat, r :: x.Decides(i, t, j, r) && j < |x.moves| &&
                                x.At(i).system.db.runs[x.run] == RunRow(x.Seen(t), Some(x.moves[j].at))
  }

  /** The run row is untouched, or holds what the last agent to close the run saw. */
  lemma {:induction false} RunStatusAt(x: Execution, i: nat)
    requires x.Valid() && x.traces != map[] && i <= |x.moves|
    ensures x.run in x.At(i).system.db.runs
    ensures if NeverClosed(x, i) then x.At(i).system.db.runs[x.run] == RunRow(Running, None) else HoldsSeen(x, i)
  {
    if i > 0 {
      hide *;
      var n := i - 1;
      RunStatusAt(x, n);
      RunRowStep(x, n);
      if q :| x.ClosesRun(n, q) {
        var t := Tallied(x, n, q);
        LastToClose(x, n, t, q);
      } else {
        StillLast(x, n);
      }
    }
  }

  lemma LastToClose(x: Execution, i: nat, t: nat, r: ResultId)
    requires i < |x.moves| && x.run in x.At(i + 1).system.db.runs
    requires x.Tallies(t, r) && x.ClosesRun(i, r) && IsLastAct(x, t, i, r)
    requires x.At(i + 1).system.db.runs[x.run] == RunRow(x.Seen(t), Some(x.moves[i].at))
    ensures !NeverClosed(x, i + 1) && HoldsSeen(x, i + 1)
  {
    hide Execution.ClosesRun, Execution.Tallies, Execution.Acts, Execution.At, Execution.Seen;
    assert x.Decides(i + 1, t, i, r);
  }

  lemma StillLast(x: Execution, i: nat)
    requires i < |x.moves| && x.run in x.At(i).system.db.runs && x.run in x.At(i + 1).system.db.runs
    requires x.At(i + 1).system.db.runs[x.run] == x.At(i).system.db.runs[x.run]
    requires forall q :: !x.ClosesRun(i, q)
    ensures NeverClosed(x, i + 1) <==> NeverClosed(x, i)
    ensures HoldsSeen(x, i) ==> HoldsSeen(x, i + 1)
  {
    hide Execution.ClosesRun, Execution.Tallies, Execution.Acts, Execution.At, Execution.Seen;
    if t: nat, j: nat, r :| x.Decides(i, t, j, r) && j < |x.moves| &&
                            x.At(i).system.db.runs[x.run] == RunRow(x.Seen(t), Some(x.moves[j].at))
    {
      assert x.Decides(i + 1, t, j, r);
    }
  }

  // ---------------------------------------------------------------------------------------------
  // Exactly when the run is closed

  /** A result ends at its final status exactly when its last close follows its mark, or it was failed; otherwise it is
      left open. */
  lemma ResultClosedExactly(x: Execution, r: ResultId)
    requires x.Valid() && x.Over() && r in x.Ids()
    ensures r in x.At(|x.moves|).system.db.results
    ensures var status := x.At(|x.moves|).system.db.results[r].status;
      if x.Ended(|x.moves|, r) then status == x.Final(r) && IsTerminal(status) else IsOpen(status)
  {
    OverMeans(x);
    StatusAt(x, |x.moves|, r);
    FinalIsTerminal(x, r);
    hide Execution.At, Execution.Valid, Execution.Ended, Execution.Final, Execution.Ids;
  }

  /** Once the dispatch and the agents are done nothing changes any more, whatever turns follow. */
  lemma OverIsFinal(x: Execution, m: Move)
    requires x.Valid() && x.Over()
    ensures x.Next(x.At(|x.moves|), m) == x.At(|x.moves|)
  {
    if m.AgentMove? && m.agent in x.At(|x.moves|).system.agents {
      AgentHasRow(x, |x.moves|, m.agent);
    }
  }

  /** If no target was reached, the dispatch closes the run itself, unless there was no target at all. */
  lemma UnsentClosedExactly(x: Execution)
    requires x.Valid() && x.Over() && x.traces == map[]
    ensures x.RightlyClosed() <==> x.targets != []
  {
    var n := |x.moves|;
    AtKept(x, n);
    OverMeans(x);
    AggregateIsSeen(x, n);
    AllSeen(x, n);
    hide Execution.At, Execution.Valid, Execution.Ended, Execution.Seen, Sound, AgentsFollow;
    if x.targets == [] {
      NeverWritten(x, n);
    } else {
      assert x.targets[0].result in x.Ids();
    }
  }

  lemma {:induction false} NeverWritten(x: Execution, i: nat)
    requires x.Valid() && x.targets == [] && i <= |x.moves|
    ensures x.At(i) == x.Begin() && x.Begin().todo == [] && x.run in x.At(i).system.db.runs
    ensures x.At(i).system.db.runs[x.run].status == Running
  {
    if i > 0 {
      NeverWritten(x, i - 1);
    }
  }

  lemma OverMeans(x: Execution)
    requires x.Valid() && x.Over()
    ensures forall r :: r in x.Ids() ==> r in x.At(|x.moves|).system.db.results
    ensures forall r :: r in x.Ids() && r !in x.traces ==> x.Ended(|x.moves|, r)
  {
    AtKept(x, |x.moves|);
    ReachedIds(x);
    hide Execution.Valid, Execution.At, Execution.Ended, Execution.Ids, Rows, Sound, AgentsFollow;
    forall r | r in x.Ids() && r !in x.traces ensures x.Ended(|x.moves|, r) {
      UnreachedEnds(x, |x.moves|, r);
    }
  }

  lemma AllSeen(x: Execution, i: nat)
    requires forall r :: r in x.Ids() ==> x.Ended(i, r)
    ensures x.Seen(i) == x.Expected()
  {
    hide Execution.Ended, Execution.Ids, Execution.Final;
    if r :| r in x.Ids() && x.Final(r) == Failed {
      assert x.Saw(i, Failed);
    }
    if r :| r in x.Ids() && x.Final(r) == Done {
      assert x.Saw(i, Done);
    }
  }

  /** The deciding tally is unique. */
  lemma DecidesOnce(x: Execution, n: nat, t: nat, j: nat, r: ResultId, t': nat, j': nat, r': ResultId)
    requires x.Decides(n, t, j, r) && x.Decides(n, t', j', r')
    ensures t == t' && j == j' && r == r'
  {
    hide Execution.At;
  }

  /** Under every schedule in which the dispatch and the agents finish, the run is rightly closed exactly when the last
      close of every reached result follows its mark, and some agent closed the run, and what the last one to do so
      had seen when it tallied adds up to the same as all results do. */
  lemma RightlyClosedExactly(x: Execution)
    requires x.Valid() && x.Over() && x.traces != map[]
    ensures x.RightlyClosed() <==>
            && (forall r :: r in x.traces ==> x.Ended(|x.moves|, r))
            && (exists t, j, r :: x.Decides(|x.moves|, t, j, r) && x.Seen(t) == x.Expected())
  {
    var n := |x.moves|;
    OverMeans(x);
    ReachedIds(x);
    AggregateIsSeen(x, n);
    RunStatusAt(x, n);
    hide Execution.At, Execution.Valid, Execution.Ids, Execution.Ended, Execution.Seen, Execution.Expected;
    hide Execution.Decides;
    if forall r :: r in x.traces ==> x.Ended(n, r) {
      AllSeen(x, n);
      ExpectedIsFinal(x);
      if NeverClosed(x, n) {
        NobodyDecides(x, n);
      } else {
        var t, j, r :| x.Decides(n, t, j, r) && x.At(n).system.db.runs[x.run].status == x.Seen(t);
        forall t', j', r' | x.Decides(n, t', j', r') ensures t' == t {
          DecidesOnce(x, n, t, j, r, t', j', r');
        }
      }
    }
  }

  lemma ExpectedIsFinal(x: Execution)
    ensures x.Expected() != Running
  {
  }

  lemma NobodyDecides(x: Execution, n: nat)
    requires NeverClosed(x, n)
    ensures forall t, j, r :: !x.Decides(n, t, j, r)
  {
    hide Execution.ClosesRun;
  }

  // ---------------------------------------------------------------------------------------------
  // Schedules without stale counts

  /** No agent counts before every result is inserted and every reached one is marked. */
  ghost predicate Orderly(x: Execution) {
    forall i: nat, r, st ::
      i < |x.moves| && x.Counts(i, r) && st in x.At(i).todo ==> !st.Insert? && !st.Mark?
  }

  lemma {:induction false} TodoShrinks(x: Execution, i: nat, j: nat, st: Statement)
    requires i <= j <= |x.moves| && st in x.At(j).todo
    ensures st in x.At(i).todo
    decreases j
  {
    if i < j {
      TodoShrinks(x, i, j - 1, st);
    }
  }

  lemma ExecutesItsHead(x: Execution, i: nat, st: Statement)
    requires x.Executes(i, st)
    ensures i < |x.moves| && st in x.At(i).todo
  {
  }

  /** A result that has ended stays so if its mark is not to come any more. */
  lemma {:induction false} EndedStays(x: Execution, c: nat, i: nat, r: ResultId)
    requires c <= i <= |x.moves| && x.Ended(c, r) && Mark(r) !in x.At(c).todo
    ensures x.Ended(i, r)
    decreases i
  {
    hide *;
    if c < i {
      EndedStays(x, c, i - 1, r);
      EndedStep(x, i - 1, r);
      if x.Executes(i - 1, Mark(r)) {
        ExecutesItsHead(x, i - 1, Mark(r));
        TodoShrinks(x, c, i - 1, Mark(r));
      }
    }
  }

  lemma StillToInsert(x: Execution, w: World, q: ResultId)
    requires Kept(x, w) && q in x.Ids()
    ensures Insert(q) in w.todo || q in w.system.db.results
  {
    hide Sound, Rows, AgentsFollow, Execution.Ids;
  }

  lemma OrderlyAt(x: Execution, c: nat, r: ResultId, st: Statement)
    requires Orderly(x) && c < |x.moves| && x.Counts(c, r) && st in x.At(c).todo
    ensures !st.Insert? && !st.Mark?
  {
    hide Execution.At, Execution.Counts;
  }

  lemma OrderlyTodo(x: Execution, c: nat, r: ResultId, q: ResultId)
    requires x.Valid() && Orderly(x) && c < |x.moves| && x.Counts(c, r) && q in x.Ids()
    ensures Mark(q) !in x.At(c).todo && q in x.At(c).system.db.results
  {
    hide *;
    AtKept(x, c);
    StillToInsert(x, x.At(c), q);
    if Mark(q) in x.At(c).todo {
      OrderlyAt(x, c, r, Mark(q));
    }
    if Insert(q) in x.At(c).todo {
      OrderlyAt(x, c, r, Insert(q));
    }
  }

  /** In an orderly schedule a count of zero has seen every result ended, for good. */
  lemma CountedAll(x: Execution, c: nat, r: ResultId, i: nat)
    requires x.Valid() && Orderly(x) && x.Counts(c, r) && c <= i <= |x.moves|
    requires forall q :: q in x.Ids() && q in x.At(c).system.db.results ==> x.Ended(c, q)
    ensures forall q :: q in x.Ids() ==> x.Ended(c, q) && x.Ended(i, q)
  {
    MoveKinds(x, c, r);
    hide *;
    forall q | q in x.Ids() ensures x.Ended(c, q) && x.Ended(i, q) {
      OrderlyTodo(x, c, r, q);
      EndedStays(x, c, i, q);
    }
  }

  /** An agent that counts zero goes on to close the run. */
  lemma WillCloseRun(x: Execution, c: nat, r: ResultId)
    requires x.Valid() && x.Over() && x.Counts(c, r) && c < |x.moves| && AllClosed(x.At(c).system.db, x.run)
    ensures !NeverClosed(x, |x.moves|)
  {
    hide *;
    MoveKinds(x, c, r);
    AgentHasRow(x, c, r);
    CountTells(x, c, r);
    OwnMove(x, c, r);
    var t := NextAct(x, c + 1, r);
    MoveKinds(x, t, r);
    AgentHasRow(x, t, r);
    OwnMove(x, t, r);
    var j := NextAct(x, t + 1, r);
    MoveKinds(x, j, r);
    ClosedOnce(x, j, r);
  }

  lemma ClosedOnce(x: Execution, j: nat, r: ResultId)
    requires j < |x.moves| && x.ClosesRun(j, r)
    ensures !NeverClosed(x, |x.moves|)
  {
  }

  /** Under every orderly schedule in which all finish, the run is rightly closed exactly when some agent counts after
      every result has ended; it is left open when the last count comes before the last unreached target is failed. */
  lemma OrderlyClosedExactly(x: Execution)
    requires x.Valid() && x.Over() && x.traces != map[] && Orderly(x)
    ensures x.RightlyClosed() <==>
            exists c, r :: x.Counts(c, r) && forall q :: q in x.Ids() ==> x.Ended(c, q)
  {
    var n := |x.moves|;
    RightlyClosedExactly(x);
    ReachedIds(x);
    hide *;
    if x.RightlyClosed() {
      var t, r := Decider(x);
      var c := CountBefore(x, t, r);
    }
    if c: nat, r :| x.Counts(c, r) && forall q :: q in x.Ids() ==> x.Ended(c, q) {
      MoveKinds(x, c, r);
      AggregateIsSeen(x, c);
      CountedAll(x, c, r, n);
      WillCloseRun(x, c, r);
      RunStatusAt(x, n);
      var t, j, r' := Holder(x);
      var c' := CountBefore(x, t, r');
    }
  }

  lemma Decider(x: Execution) returns (t: nat, r: ResultId)
    requires exists t, j, r :: x.Decides(|x.moves|, t, j, r)
    ensures x.Tallies(t, r)
  {
    var j: nat;
    t, j, r :| x.Decides(|x.moves|, t, j, r);
  }

  lemma Holder(x: Execution) returns (t: nat, j: nat, r: ResultId)
    requires x.run in x.At(|x.moves|).system.db.runs && HoldsSeen(x, |x.moves|)
    ensures x.Decides(|x.moves|, t, j, r) && x.Tallies(t, r)
  {
    t, j, r :| x.Decides(|x.moves|, t, j, r);
  }

  /** The deciding tally of an orderly schedule follows a count that has seen every result ended. */
  lemma CountBefore(x: Execution, t: nat, r: ResultId) returns (c: nat)
    requires x.Valid() && Orderly(x) && x.Tallies(t, r)
    ensures x.Counts(c, r) && forall q :: q in x.Ids() ==> x.Ended(c, q)
    ensures x.Seen(t) == x.Expected()
  {
    MoveKinds(x, t, r);
    hide *;
    c := Counted(x, t, r);
    AggregateIsSeen(x, c);
    CountedAll(x, c, r, t);
    AllSeen(x, t);
  }

  // ---------------------------------------------------------------------------------------------
  // A dispatch that is over in time

  /** No agent closes its result before the dispatch is over. */
  ghost predicate DispatchFirst(x: Execution) {
    forall i: nat, r :: i < |x.moves| && x.Closes(i, r) ==> x.At(i).todo == []
  }

  lemma {:induction false} TodoStaysEmpty(x: Execution, i: nat, j: nat)
    requires i <= j <= |x.moves| && x.At(i).todo == []
    ensures x.At(j).todo == []
    decreases j
  {
    if i < j {
      TodoStaysEmpty(x, i, j - 1);
    }
  }

  /** An agent about to count has closed its result by its last move. */
  lemma ClosedBefore(x: Execution, i: nat, r: ResultId) returns (c: nat)
    requires x.Valid() && i <= |x.moves| && r in x.At(i).system.agents && x.At(i).system.agents[r].phase.Counting?
    ensures c < i && x.Closes(c, r)
  {
    hide *;
    c := LastAct(x, i, r);
    ActorIsAgent(x, c, i, r);
    AgentHasRow(x, c, r);
    OwnMove(x, c, r);
  }

  lemma DispatchFirstIsOrderly(x: Execution)
    requires x.Valid() && DispatchFirst(x)
    ensures Orderly(x)
  {
    forall i: nat, r | i < |x.moves| && x.Counts(i, r) ensures x.At(i).todo == [] {
      var c := ClosedBefore(x, i, r);
      TodoStaysEmpty(x, c, i);
    }
  }

  /** An agent with nothing more to send has closed its result at least once, or is about to. */
  lemma {:induction false} HasClosed(x: Execution, i: nat, r: ResultId) returns (c: nat)
    requires x.Valid() && i <= |x.moves| && r in x.At(i).system.agents
    requires x.At(i).system.agents[r].todo == [] && !x.At(i).system.agents[r].phase.Closing?
    ensures c < i && x.Closes(c, r)
  {
    hide *;
    AgentHasRow(x, i, r);
    AwakeLater(x, i, r);
    if x.Closes(i - 1, r) {
      c := i - 1;
    } else {
      StillNothingToSend(x, i - 1, r);
      c := HasClosed(x, i - 1, r);
    }
  }

  lemma TraceCloses(x: Execution, r: ResultId)
    requires x.Valid() && r in x.traces
    ensures WellClosed(x.traces[r])
  {
  }

  lemma StillNothingToSend(x: Execution, i: nat, r: ResultId)
    requires x.Valid() && i < |x.moves| && r in x.At(i + 1).system.agents && r in x.traces
    requires x.At(i + 1).system.agents[r].todo == [] && !x.At(i + 1).system.agents[r].phase.Closing?
    requires !x.Closes(i, r)
    ensures r in x.At(i).system.agents
    ensures x.At(i).system.agents[r].todo == [] && !x.At(i).system.agents[r].phase.Closing?
  {
    hide Act, AgentOk, Execution.Ids, Execution.Do;
    if x.Acts(i, r) {
      TraceCloses(x, r);
      AgentHasRow(x, i, r);
      LastMessageCloses(x.At(i).system, r, x.moves[i].at, x.traces[r]);
    } else {
      if r !in x.At(i).system.agents {
        WokenWithWork(x, i, r);
      }
      OthersKeepAgent(x, i, r);
    }
  }

  lemma LastIsAllDone(a: Agent, trace: seq<Progress>)
    requires WellClosed(trace) && AgentOk(a, ClosingStatus(trace), trace) && |a.todo| == 1
    ensures a.todo[0].allDone && Storable(a.todo[0])
  {
    assert a.todo[0] == trace[|trace| - 1];
  }

  lemma LastMessageCloses(s: System, r: ResultId, now: Time, trace: seq<Progress>)
    requires r in s.agents && r in s.db.results && WellClosed(trace)
    requires AgentOk(s.agents[r], ClosingStatus(trace), trace)
    ensures var s' := Act(s, r, now);
      r in s'.agents && (s'.agents[r].todo == [] && !s'.agents[r].phase.Closing? ==> s.agents[r].todo == [])
  {
    hide CountPending, CountOutcomes, MergedStep, InsertedStep, Messages, ClosingStatus, AgentOk, WellClosed;
    var a := s.agents[r];
    if |a.todo| == 1 {
      LastIsAllDone(a, trace);
    }
  }

  lemma WokenWithWork(x: Execution, i: nat, r: ResultId)
    requires x.Valid() && i < |x.moves| && r in x.At(i + 1).system.agents && r !in x.At(i).system.agents
    requires r in x.traces
    ensures x.At(i + 1).system.agents[r].todo != []
  {
    assert WellClosed(x.traces[r]);
  }

  /** The last close before move i, by any agent. */
  lemma {:induction false} LastClose(x: Execution, i: nat, c0: nat, r0: ResultId) returns (c: nat, r: ResultId)
    requires c0 < i <= |x.moves| && x.Closes(c0, r0)
    ensures c0 <= c < i && x.Closes(c, r) && forall k, q :: c < k < i ==> !x.Closes(k, q)
    decreases i
  {
    hide Execution.Closes;
    var n := i - 1;
    if q :| x.Closes(n, q) {
      c, r := n, q;
    } else {
      c, r := LastClose(x, n, c0, r0);
    }
  }

  lemma ClosedIsEnded(x: Execution, c: nat, i: nat, r: ResultId)
    requires c < i <= |x.moves| && x.Closes(c, r) && DispatchFirst(x)
    ensures x.Ended(i, r)
  {
    hide *;
    CloseComesLate(x, c, r);
    EndedStep(x, c, r);
    TodoStaysEmpty(x, c, c + 1);
    NothingToMark(x, c + 1, r);
    EndedStays(x, c + 1, i, r);
  }

  lemma NothingToMark(x: Execution, i: nat, r: ResultId)
    requires i <= |x.moves| && x.At(i).todo == []
    ensures Mark(r) !in x.At(i).todo && Fail(r) !in x.At(i).todo
  {
  }

  lemma FinishedHasClosed(x: Execution, r: ResultId) returns (c: nat)
    requires x.Valid() && x.Over() && r in x.traces
    ensures c < |x.moves| && x.Closes(c, r)
  {
    c := HasClosed(x, |x.moves|, r);
  }

  lemma CloseComesLate(x: Execution, i: nat, r: ResultId)
    requires DispatchFirst(x) && i < |x.moves| && x.Closes(i, r)
    ensures x.At(i).todo == []
  {
  }

  /** Sooner or later the last agent to close counts. */
  lemma CountsAfterLastClose(x: Execution, r0: ResultId) returns (c: nat, k: nat, r: ResultId)
    requires x.Valid() && x.Over() && r0 in x.traces
    ensures c < k < |x.moves| && x.Closes(c, r) && x.Counts(k, r)
    ensures forall i, q :: c < i < |x.moves| ==> !x.Closes(i, q)
  {
    hide *;
    var c0 := FinishedHasClosed(x, r0);
    c, r := LastClose(x, |x.moves|, c0, r0);
    MoveKinds(x, c, r);
    AgentHasRow(x, c, r);
    OwnMove(x, c, r);
    k := NextAct(x, c + 1, r);
    MoveKinds(x, k, r);
  }

  /** If the dispatch is over before the first close, the run is rightly closed. */
  lemma DispatchFirstIsClosed(x: Execution)
    requires x.Valid() && x.Over() && x.traces != map[] && DispatchFirst(x)
    ensures x.RightlyClosed()
  {
    ReachedIds(x);
    DispatchFirstIsOrderly(x);
    OrderlyClosedExactly(x);
    hide *;
    var r0 := SomeReached(x);
    var c, k, r := CountsAfterLastClose(x, r0);
    CloseComesLate(x, c, r);
    TodoStaysEmpty(x, c, k);
    forall q | q in x.Ids() ensures x.Ended(k, q) {
      if q in x.traces {
        var d := FinishedHasClosed(x, q);
        ClosedIsEnded(x, d, k, q);
      } else {
        UnreachedEnds(x, k, q);
        NothingToMark(x, k, q);
      }
    }
  }

  lemma SomeReached(x: Execution) returns (r: ResultId)
    requires x.traces != map[]
    ensures r in x.traces
  {
    EmptyIfNone(x.traces);
    r :| r in x.traces;
  }
}
