/** The server's script tables and the SQL statements that fill them. */
module ScriptDb {
  import opened Common
  import opened Script

  type ResultId = int
  type RunId = int

  datatype StepRow = StepRow(
    caption: string,
    status: Status,
    output: string,
    exitCode: Option<int>,
    startedAt: Option<Time>,
    finishedAt: Option<Time>)

  datatype ResultRow = ResultRow(
    runId: RunId,
    status: Status,
    error: Option<string>,
    startedAt: Option<Time>,
    finishedAt: Option<Time>)

  datatype RunRow = RunRow(status: Status, finishedAt: Option<Time>)

  /** The rows of script_run_steps (unique by result and node), script_run_results and script_runs. */
  datatype Db = Db(
    steps: map<(ResultId, NodeId), StepRow>,
    results: map<ResultId, ResultRow>,
    runs: map<RunId, RunRow>)

  datatype DbError = ForeignKeyViolation | InvalidText

  /** Whether the server can parse the message: an exit code must fit in 32 signed bits. Windows exit codes are
      unsigned, so a crashed process may report one that does not. */
  predicate Parses(p: Progress) {
    p.exitCode.Some? ==> -0x8000_0000 <= p.exitCode.value < 0x8000_0000
  }

  /** A TEXT column takes any text without the NUL character. */
  predicate IsText(s: string) {
    '\0' !in s
  }

  /** Whether the step table can hold the message. */
  predicate Storable(p: Progress) {
    && IsText(p.nodeId) && IsText(p.nodeLabel) && IsText(p.output)
    && (p.status.Other? ==> IsText(p.status.text))
  }

  predicate Accepted(p: Progress) {
    Parses(p) && Storable(p)
  }

  /** The messages that have an effect: the connection drops those that do not parse, and ignores the error of a
      refused upsert. */
  function Delivered(trace: seq<Progress>): seq<Progress> {
    if trace == [] then []
    else
      var last := trace[|trace| - 1];
      Delivered(trace[..|trace| - 1]) + if Accepted(last) then [last] else []
  }

  predicate IsTerminal(status: Status) {
    status == Done || status == Failed
  }

  predicate IsOpen(status: Status) {
    status == Pending || status == Running
  }

  // ---------------------------------------------------------------------------------------------
  // The statements of persist_script_progress

  function InsertedStep(p: Progress, now: Time): StepRow {
    StepRow(p.nodeLabel, p.status, p.output, p.exitCode,
            if p.status == Running then Some(now) else None,
            if IsTerminal(p.status) then Some(now) else None)
  }

  function MergedStep(row: StepRow, p: Progress, now: Time): StepRow {
    var excluded := InsertedStep(p, now);
    row.(status := excluded.status,
         output := row.output + excluded.output,
         exitCode := if excluded.exitCode.Some? then excluded.exitCode else row.exitCode,
         startedAt := if row.startedAt.Some? then row.startedAt else excluded.startedAt,
         finishedAt := if IsTerminal(excluded.status) then Some(now) else row.finishedAt)
  }

  /** INSERT ... ON CONFLICT (run_result_id, node_id) DO UPDATE; the texts must be valid and the result row exist. */
  function UpsertStep(db: Db, rid: ResultId, p: Progress, now: Time): Result<Db, DbError> {
    if !Storable(p) then Err(InvalidText)
    else if rid !in db.results then Err(ForeignKeyViolation)
    else
      var key := (rid, p.nodeId);
      var row := if key in db.steps then MergedStep(db.steps[key], p, now) else InsertedStep(p, now);
      Ok(db.(steps := db.steps[key := row]))
  }

  /** The status an all-done message leaves its device with. */
  function FinalStatus(p: Progress): Status {
    if p.status == Failed then Failed else Done
  }

  function CloseResult(db: Db, rid: ResultId, status: Status, now: Time): Db {
    if rid !in db.results then db
    else db.(results := db.results[rid := db.results[rid].(status := status, finishedAt := Some(now))])
  }

  /** The results of the run that rid belongs to; none if rid is unknown. */
  function Siblings(db: Db, rid: ResultId): set<ResultId> {
    set r | r in db.results && rid in db.results && db.results[r].runId == db.results[rid].runId
  }

  function OpenSiblings(db: Db, rid: ResultId): set<ResultId> {
    set r | r in Siblings(db, rid) && IsOpen(db.results[r].status)
  }

  function SiblingsAt(db: Db, rid: ResultId, status: Status): set<ResultId> {
    set r | r in Siblings(db, rid) && db.results[r].status == status
  }

  function CountPending(db: Db, rid: ResultId): (nat, nat) {
    (|Siblings(db, rid)|, |OpenSiblings(db, rid)|)
  }

  function CountOutcomes(db: Db, rid: ResultId): (nat, nat) {
    (|SiblingsAt(db, rid, Done)|, |SiblingsAt(db, rid, Failed)|)
  }

  function RunStatus(done: nat, failed: nat): Status {
    if failed == 0 then Done else if done == 0 then Failed else Partial
  }

  function CloseRun(db: Db, rid: ResultId, status: Status, now: Time): Db {
    if rid !in db.results || db.results[rid].runId !in db.runs then db
    else
      var run := db.results[rid].runId;
      db.(runs := db.runs[run := RunRow(status, Some(now))])
  }

  /** The times at which the writing statements of one call run. */
  datatype Times = Times(upsert: Time, close: Time, run: Time)

  /** The database after one undisturbed call of persist_script_progress. */
  function Persisted(db: Db, rid: ResultId, p: Progress, at: Times): Result<Db, DbError> {
    match UpsertStep(db, rid, p, at.upsert)
    case Err(e) => Err(e)
    case Ok(db1) =>
      if !p.allDone then Ok(db1)
      else
        var db2 := CloseResult(db1, rid, FinalStatus(p), at.close);
        var (total, pending) := CountPending(db2, rid);
        if total > 0 && pending == 0 then
          var (done, failed) := CountOutcomes(db2, rid);
          Ok(CloseRun(db2, rid, RunStatus(done, failed), at.run))
        else Ok(db2)
  }

  /** No text of the message holds a NUL character. */
  predicate NoNul(p: Progress) {
    && '\0' !in p.nodeId && '\0' !in p.nodeLabel && '\0' !in p.output
    && (p.status.Other? ==> '\0' !in p.status.text)
  }

  lemma RefusedUpsert(db: Db, rid: ResultId, p: Progress, now: Time)
    ensures UpsertStep(db, rid, p, now).Err? <==> !NoNul(p) || rid !in db.results
    ensures UpsertStep(db, rid, p, now).Ok? ==>
      UpsertStep(db, rid, p, now).value.results == db.results && UpsertStep(db, rid, p, now).value.runs == db.runs
  {
  }

  /** No result of the run has that status. */
  predicate NoneAt(results: map<ResultId, ResultRow>, run: RunId, status: Status) {
    forall q :: q in results && results[q].runId == run ==> results[q].status != status
  }

  /** What one call leaves of the results and the runs. A message that does not say all done leaves them alone. One that
      does closes its result, failed or done, at its time; and if then no result of the run is pending or running, it
      closes the run: done if none failed, failed if none is done, partial otherwise. */
  lemma PersistedExactly(db: Db, rid: ResultId, p: Progress, at: Times)
    ensures Persisted(db, rid, p, at).Err? <==> !NoNul(p) || rid !in db.results
    ensures Persisted(db, rid, p, at).Ok? && !p.allDone ==>
      Persisted(db, rid, p, at).value.results == db.results && Persisted(db, rid, p, at).value.runs == db.runs
    ensures Persisted(db, rid, p, at).Ok? && p.allDone ==>
      var db', row := Persisted(db, rid, p, at).value, db.results[rid];
      var results := db.results[rid := ResultRow(row.runId, if p.status == Failed then Failed else Done, row.error,
                                                 row.startedAt, Some(at.close))];
      && db'.results == results
      && db'.runs ==
           if row.runId in db.runs && NoneAt(results, row.runId, Pending) && NoneAt(results, row.runId, Running)
           then db.runs[row.runId := RunRow(if NoneAt(results, row.runId, Failed) then Done
                                            else if NoneAt(results, row.runId, Done) then Failed
                                            else Partial, Some(at.run))]
           else db.runs
  {
    RefusedUpsert(db, rid, p, at.upsert);
    if rid in db.results && NoNul(p) && p.allDone {
      var db1 := UpsertStep(db, rid, p, at.upsert).value;
      var db2 := CloseResult(db1, rid, FinalStatus(p), at.close);
      hide UpsertStep, CloseRun;
      OpenMeans(db2, rid);
      OutcomesMean(db2, rid, Done);
      OutcomesMean(db2, rid, Failed);
    }
  }

  lemma OpenMeans(db: Db, rid: ResultId)
    requires rid in db.results
    ensures CountPending(db, rid).0 > 0
    ensures CountPending(db, rid).1 == 0 <==>
            NoneAt(db.results, db.results[rid].runId, Pending) && NoneAt(db.results, db.results[rid].runId, Running)
  {
    assert rid in Siblings(db, rid);
    var run := db.results[rid].runId;
    if q :| q in db.results && db.results[q].runId == run && IsOpen(db.results[q].status) {
      assert q in OpenSiblings(db, rid);
    } else {
      assert forall q :: q !in OpenSiblings(db, rid);
    }
  }

  lemma OutcomesMean(db: Db, rid: ResultId, status: Status)
    requires rid in db.results
    ensures |SiblingsAt(db, rid, status)| == 0 <==> NoneAt(db.results, db.results[rid].runId, status)
  {
    if q :| q in SiblingsAt(db, rid, status) {
    } else {
      forall q | q in db.results && db.results[q].runId == db.results[rid].runId
        ensures db.results[q].status != status
      {
        assert q !in SiblingsAt(db, rid, status);
      }
    }
  }

  // ---------------------------------------------------------------------------------------------
  // The server

  /** A device row of a dispatch: the result id it gets, and whether its agent took the message. */
  datatype Target = Target(result: ResultId, connected: bool)

  class Server {
    var steps: map<(ResultId, NodeId), StepRow>
    var results: map<ResultId, ResultRow>
    var runs: map<RunId, RunRow>

    function View(): Db
      reads this
    {
      Db(steps, results, runs)
    }

    method ExecUpsertStep(rid: ResultId, p: Progress, now: Time) returns (r: Result<(), DbError>)
      modifies `steps
      ensures match UpsertStep(old(View()), rid, p, now)
              case Ok(db) => r.Ok? && View() == db
              case Err(e) => r == Err(e) && View() == old(View())
      ensures r.Err? <==> !NoNul(p) || rid !in results
    {
      if !Storable(p) {
        return Err(InvalidText);
      }
      if rid !in results {
        return Err(ForeignKeyViolation);
      }
      var key := (rid, p.nodeId);
      if key in steps {
        steps := steps[key := MergedStep(steps[key], p, now)];
      } else {
        steps := steps[key := InsertedStep(p, now)];
      }
      return Ok(());
    }

    method ExecCloseResult(rid: ResultId, status: Status, now: Time)
      modifies `results
      ensures View() == CloseResult(old(View()), rid, status, now)
    {
      if rid in results {
        results := results[rid := results[rid].(status := status, finishedAt := Some(now))];
      }
    }

    method ExecCloseRun(rid: ResultId, status: Status, now: Time)
      modifies `runs
      ensures View() == CloseRun(old(View()), rid, status, now)
    {
      if rid in results && results[rid].runId in runs {
        runs := runs[results[rid].runId := RunRow(status, Some(now))];
      }
    }

    method PersistScriptProgress(rid: ResultId, p: Progress, at: Times) returns (r: Result<(), DbError>)
      modifies this
      ensures match Persisted(old(View()), rid, p, at)
              case Ok(db) => r.Ok? && View() == db
              case Err(e) => r == Err(e) && View() == old(View())
      ensures r.Err? <==> !NoNul(p) || rid !in old(results)
      ensures r.Ok? && p.allDone ==>
        rid in results && results[rid].status == (if p.status == Failed then Failed else Done) &&
        results[rid].finishedAt == Some(at.close)
    {
      PersistedExactly(View(), rid, p, at);
      r := ExecUpsertStep(rid, p, at.upsert);
      if r.Err? {
        return;
      }
      if p.allDone {
        var finalStatus := if p.status == Failed then Failed else Done;
        ExecCloseResult(rid, finalStatus, at.close);
        var (total, pending) := CountPending(View(), rid);
        if total > 0 && pending == 0 {
          var (done, failed) := CountOutcomes(View(), rid);
          var runStatus := if failed == 0 then Done else if done == 0 then Failed else Partial;
          ExecCloseRun(rid, runStatus, at.run);
        }
      }
    }

    method InsertTarget(run: RunId, target: Target, now: Time)
      modifies `results
      ensures results == old(results)[target.result := Attempted(run, target, now)]
    {
      results := results[target.result := ResultRow(run, Pending, None, None, None)];
      if target.connected {
        results := results[target.result := results[target.result].(status := Running, startedAt := Some(now))];
      }
    }

    /** The dispatch loop: a pending result per target, marked running once its agent took the message. */
    method InsertTargets(run: RunId, targets: seq<Target>, now: Time) returns (sent: nat, unsent: seq<ResultId>)
      requires DistinctTargets(targets)
      modifies `results
      ensures sent == ConnectedCount(targets)
      ensures results.Keys == old(results.Keys) + ResultIds(targets)
      ensures forall r :: r in old(results) && r !in ResultIds(targets) ==> results[r] == old(results)[r]
      ensures forall t :: t in targets ==> results[t.result] == Attempted(run, t, now)
      ensures forall t :: t in targets ==> (t.result in unsent <==> !t.connected)
      ensures forall r :: r in unsent ==> r in ResultIds(targets)
    {
      hide Attempted;
      sent, unsent := 0, [];
      for i := 0 to |targets|
        invariant sent == ConnectedCount(targets[..i])
        invariant results.Keys == old(results.Keys) + ResultIds(targets[..i])
        invariant forall r :: r in old(results) && r !in ResultIds(targets[..i]) ==> results[r] == old(results)[r]
        invariant forall t :: t in targets[..i] ==> results[t.result] == Attempted(run, t, now)
        invariant forall t :: t in targets[..i] ==> (t.result in unsent <==> !t.connected)
        invariant forall r :: r in unsent ==> r in ResultIds(targets[..i])
      {
        NewTarget(targets, i);
        InsertTarget(run, targets[i], now);
        if targets[i].connected {
          sent := sent + 1;
        } else {
          unsent := unsent + [targets[i].result];
        }
      }
      assert targets[..|targets|] == targets;
    }

    method FailUnsent(unsent: seq<ResultId>, now: Time)
      modifies `results
      ensures results.Keys == old(results.Keys)
      ensures forall r :: r in results ==>
        results[r] == if r in unsent then Unreached(old(results)[r], now) else old(results)[r]
    {
      for k := 0 to |unsent|
        invariant results.Keys == old(results.Keys)
        invariant forall r :: r in results ==>
          results[r] == if r in unsent[..k] then Unreached(old(results)[r], now) else old(results)[r]
      {
        assert unsent[..k + 1] == unsent[..k] + [unsent[k]];
        if unsent[k] in results {
          results := results[unsent[k] := Unreached(results[unsent[k]], now)];
        }
      }
      assert unsent[..|unsent|] == unsent;
    }

    /** run_script without agents answering meanwhile: one result per target, running if the agent took the
        message and failed if not, and the run already closed as failed if no agent took it. */
    method Dispatch(run: RunId, targets: seq<Target>, now: Time) returns (sent: nat)
      requires DistinctTargets(targets)
      modifies `results, `runs
      ensures sent == ConnectedCount(targets)
      ensures AfterDispatch(old(View()), View(), run, targets, now)
    {
      runs := runs[run := RunRow(Running, None)];
      var unsent;
      sent, unsent := InsertTargets(run, targets, now);
      FailUnsent(unsent, now);
      ConnectedCountZero(targets);
      if sent == 0 && |targets| > 0 {
        runs := runs[run := RunRow(Failed, Some(now))];
      }
    }
  }

  /** What a dispatch adds: a result per target, running or failed, and the run, failed at once if there were targets
      but none took the message. */
  ghost predicate AfterDispatch(before: Db, after: Db, run: RunId, targets: seq<Target>, now: Time) {
    && after.steps == before.steps
    && after.results.Keys == before.results.Keys + ResultIds(targets)
    && (forall r :: r in before.results && r !in ResultIds(targets) ==> after.results[r] == before.results[r])
    && (forall t :: t in targets && t.connected ==>
          after.results[t.result] == ResultRow(run, Running, None, Some(now), None))
    && (forall t :: t in targets && !t.connected ==>
          after.results[t.result] == ResultRow(run, Failed, Some("Agente não conectado."), Some(now), Some(now)))
    && after.runs == before.runs[run := if targets != [] && (forall t :: t in targets ==> !t.connected)
                                        then RunRow(Failed, Some(now)) else RunRow(Running, None)]
  }

  predicate DistinctTargets(targets: seq<Target>) {
    forall i, j :: 0 <= i < j < |targets| ==> targets[i].result != targets[j].result
  }

  function ResultIds(targets: seq<Target>): set<ResultId> {
    set t | t in targets :: t.result
  }

  function ConnectedCount(targets: seq<Target>): nat {
    if targets == [] then 0
    else ConnectedCount(targets[..|targets| - 1]) + if targets[|targets| - 1].connected then 1 else 0
  }

  lemma {:induction false} ConnectedCountZero(targets: seq<Target>)
    ensures ConnectedCount(targets) == 0 <==> forall t :: t in targets ==> !t.connected
  {
    if targets != [] {
      ConnectedCountZero(targets[..|targets| - 1]);
      assert targets == targets[..|targets| - 1] + [targets[|targets| - 1]];
    }
  }

  /** The result row of a target when the dispatch loop leaves it. */
  function Attempted(run: RunId, t: Target, now: Time): ResultRow {
    if t.connected then ResultRow(run, Running, None, Some(now), None)
    else ResultRow(run, Pending, None, None, None)
  }

  function Unreached(row: ResultRow, now: Time): ResultRow {
    row.(status := Failed, error := Some("Agente não conectado."), startedAt := Some(now), finishedAt := Some(now))
  }

  lemma NewTarget(targets: seq<Target>, i: nat)
    requires i < |targets| && DistinctTargets(targets)
    ensures ResultIds(targets[..i + 1]) == ResultIds(targets[..i]) + {targets[i].result}
    ensures targets[i].result !in ResultIds(targets[..i])
    ensures ConnectedCount(targets[..i + 1]) == ConnectedCount(targets[..i]) + if targets[i].connected then 1 else 0
    ensures forall t :: t in targets[..i + 1] <==> t in targets[..i] || t == targets[i]
    ensures forall t :: t in targets[..i] ==> t.result != targets[i].result
  {
    var before, after := targets[..i], targets[..i + 1];
    assert after == before + [targets[i]];
    assert after[..|after| - 1] == before;
  }

  // ---------------------------------------------------------------------------------------------
  // What a step row says about the messages that made it

  /** A message and the time at which it was stored. */
  datatype Stamped = Stamped(p: Progress, at: Time)

  function Messages(sent: seq<Stamped>): (messages: seq<Progress>)
    ensures |messages| == |sent| && forall i :: 0 <= i < |sent| ==> messages[i] == sent[i].p
  {
    if sent == [] then [] else Messages(sent[..|sent| - 1]) + [sent[|sent| - 1].p]
  }

  function Outputs(messages: seq<Progress>): string {
    if messages == [] then "" else Outputs(messages[..|messages| - 1]) + messages[|messages| - 1].output
  }

  function LastExitCode(messages: seq<Progress>): Option<int> {
    if messages == [] then None
    else if messages[|messages| - 1].exitCode.Some? then messages[|messages| - 1].exitCode
    else LastExitCode(messages[..|messages| - 1])
  }

  function FirstRunning(sent: seq<Stamped>): Option<Time> {
    if sent == [] then None
    else if sent[0].p.status == Running then Some(sent[0].at)
    else FirstRunning(sent[1..])
  }

  function LastTerminal(sent: seq<Stamped>): Option<Time> {
    if sent == [] then None
    else if IsTerminal(sent[|sent| - 1].p.status) then Some(sent[|sent| - 1].at)
    else LastTerminal(sent[..|sent| - 1])
  }

  /** The first label, the last status, all outputs in order, the last exit code given, the time of the first
      running message and of the last terminal one. */
  function Summary(sent: seq<Stamped>): Option<StepRow> {
    if sent == [] then None
    else Some(StepRow(sent[0].p.nodeLabel, sent[|sent| - 1].p.status, Outputs(Messages(sent)),
                      LastExitCode(Messages(sent)), FirstRunning(sent), LastTerminal(sent)))
  }

  lemma MessagesAppend(sent: seq<Stamped>, m: Stamped)
    ensures Messages(sent + [m]) == Messages(sent) + [m.p]
  {
  }

  lemma {:induction false} FirstRunningAppend(sent: seq<Stamped>, m: Stamped)
    ensures FirstRunning(sent + [m]) ==
            if FirstRunning(sent).Some? then FirstRunning(sent)
            else if m.p.status == Running then Some(m.at) else None
  {
    if sent == [] {
      assert [m][1..] == [];
      assert sent + [m] == [m];
    } else {
      assert (sent + [m])[1..] == sent[1..] + [m];
      FirstRunningAppend(sent[1..], m);
    }
  }

  lemma SummaryPartsAppend(sent: seq<Stamped>, m: Stamped)
    ensures Outputs(Messages(sent + [m])) == Outputs(Messages(sent)) + m.p.output
    ensures LastExitCode(Messages(sent + [m])) ==
            if m.p.exitCode.Some? then m.p.exitCode else LastExitCode(Messages(sent))
    ensures LastTerminal(sent + [m]) == if IsTerminal(m.p.status) then Some(m.at) else LastTerminal(sent)
  {
    MessagesAppend(sent, m);
    assert (Messages(sent) + [m.p])[..|sent|] == Messages(sent);
    assert (sent + [m])[..|sent|] == sent;
  }

  lemma NothingSent()
    ensures Outputs(Messages([])) == "" && LastExitCode(Messages([])) == None
    ensures FirstRunning([]) == None && LastTerminal([]) == None
  {
  }

  /** Upserting a message takes the summary of the earlier ones to the summary of them all. */
  lemma SummaryAppend(sent: seq<Stamped>, m: Stamped)
    ensures Summary(sent + [m]) ==
            Some(match Summary(sent)
                 case None => InsertedStep(m.p, m.at)
                 case Some(row) => MergedStep(row, m.p, m.at))
  {
    hide Outputs, LastExitCode, LastTerminal, FirstRunning, Messages;
    FirstRunningAppend(sent, m);
    SummaryPartsAppend(sent, m);
    if sent == [] {
      NothingSent();
      assert Outputs(Messages([m])) == m.p.output by {
        assert [] + [m] == [m];
      }
      assert m.p.exitCode.None? ==> m.p.exitCode == None;
    }
  }
}
