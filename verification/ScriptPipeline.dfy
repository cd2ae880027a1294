/** The whole pipeline: a script graph, one agent per device, and the rows that are left when all agents finish. */
module ScriptPipeline {
  import opened Common
  import opened Script
  import opened TopoSort
  import opened Agent
  import opened Transcripts
  import opened ScriptDb
  import P = ScriptProtocol

  /** The text of a process's lines, each ended by a newline. */
  function Joined(lines: seq<string>): string {
    if lines == [] then "" else Joined(lines[..|lines| - 1]) + (lines[|lines| - 1] + "\n")
  }

  // ---------------------------------------------------------------------------------------------
  // One node's messages and its row

  lemma {:induction false} OutputsConcat(a: seq<Progress>, b: seq<Progress>)
    ensures Outputs(a + b) == Outputs(a) + Outputs(b)
  {
    if b == [] {
      assert a + b == a;
    } else {
      assert (a + b)[..|a + b| - 1] == a + b[..|b| - 1];
      OutputsConcat(a, b[..|b| - 1]);
    }
  }

  lemma {:induction false} OutputsOfLines(m: Progress, lines: seq<string>)
    ensures Outputs(LineMessages(m, lines)) == Joined(lines)
  {
    if lines != [] {
      var init := lines[..|lines| - 1];
      OutputsOfLines(m, init);
      assert LineMessages(m, lines)[..|LineMessages(m, lines)| - 1] == LineMessages(m, init);
    }
  }

  lemma OutputsOfOne(m: Progress)
    ensures Outputs([m]) == m.output
  {
    assert [m][..0] == [];
  }

  // What the server receives of a node's messages.

  lemma {:induction false} DeliveredConcat(a: seq<Progress>, b: seq<Progress>)
    ensures Delivered(a + b) == Delivered(a) + Delivered(b)
  {
    if b == [] {
      assert a + b == a;
    } else {
      var init := b[..|b| - 1];
      assert (a + b)[..|a + b| - 1] == a + init;
      DeliveredConcat(a, init);
    }
  }

  lemma DeliveredOne(m: Progress)
    ensures Delivered([m]) == if Accepted(m) then [m] else []
  {
    assert [m][..0] == [];
  }

  lemma {:induction false} DeliveredForNode(trace: seq<Progress>, id: NodeId)
    ensures ForNode(Delivered(trace), id) == Delivered(ForNode(trace, id))
  {
    if trace != [] {
      var init, last := trace[..|trace| - 1], trace[|trace| - 1];
      DeliveredForNode(init, id);
      DeliveredOne(last);
      hide Accepted;
      ForNodeAppend(Delivered(init), if Accepted(last) then [last] else [], last.nodeId, id);
      DeliveredConcat(ForNode(init, id), if last.nodeId == id then [last] else []);
    }
  }

  /** The lines that the step table can hold. */
  function TextLines(lines: seq<string>): seq<string> {
    if lines == [] then []
    else
      var last := lines[|lines| - 1];
      TextLines(lines[..|lines| - 1]) + if '\0' in last then [] else [last]
  }

  /** The texts of every node can be stored, as those of a script definition, a JSONB value, can. */
  ghost predicate TextNodes(nodes: map<NodeId, ScriptNode>) {
    forall id :: id in nodes ==> IsText(id) && TextNode(nodes[id])
  }

  predicate TextNode(node: ScriptNode) {
    IsText(node.id) && IsText(node.kind) && IsText(node.data.caption) && IsText(node.data.message)
  }

  /** What arrives of a node before its final message: nothing, or its start and its lines. */
  function Body(job: Job, i: nat): seq<Progress>
    requires i < |job.order| && job.Known(i)
  {
    var running := job.RunningMessage(i);
    if job.IsStep(i) then [running] + LineMessages(running, TextLines(job.OutcomeAt(i).lines)) else []
  }

  function Final(job: Job, i: nat): seq<Progress>
    requires i < |job.order| && job.Known(i)
  {
    if Parses(job.FinalMessage(i)) then [job.FinalMessage(i)] else []
  }

  /** Everything the server receives about the node at i. */
  function Received(job: Job, i: nat): seq<Progress>
    requires i < |job.order| && job.Known(i)
  {
    if i > job.Stop() then [job.SkipMessage(i)]
    else if i == job.Stop() then Body(job, i) + Final(job, i) + job.Closing()
    else Body(job, i) + Final(job, i)
  }

  lemma {:induction false} LinesHaveNoCode(m: Progress, lines: seq<string>)
    ensures forall x :: x in LineMessages(m, lines) ==> x.exitCode.None? && x.status == Running
  {
    if lines != [] {
      LinesHaveNoCode(m, lines[..|lines| - 1]);
    }
  }

  lemma BodyHasNoCode(job: Job, i: nat)
    requires i < |job.order| && job.Known(i)
    ensures forall m :: m in Body(job, i) ==> m.exitCode.None? && m.status == Running
  {
    if job.IsStep(i) {
      LinesHaveNoCode(job.RunningMessage(i), TextLines(job.OutcomeAt(i).lines));
    }
  }

  lemma {:induction false} DecimalIsText(n: nat)
    ensures IsText(Decimal(n))
  {
    if n >= 10 {
      DecimalIsText(n / 10);
    }
  }

  lemma JoinedTexts(a: string, b: string)
    ensures IsText(a + b) <==> IsText(a) && IsText(b)
  {
    if IsText(a + b) {
      assert forall k :: 0 <= k < |a| ==> a[k] == (a + b)[k];
      assert forall k :: 0 <= k < |b| ==> b[k] == (a + b)[|a| + k];
    }
  }

  lemma FixedTexts()
    ensures IsText("") && IsText("\n") && IsText("Variáveis definidas: ")
    ensures IsText("Tipo de nó desconhecido: ") && IsText("Pulado devido a falha em passo anterior.\n")
  {
  }

  lemma FinalOutputIsText(job: Job, i: nat)
    requires i < |job.order| && job.Known(i) && TextNode(job.nodes[job.order[i]])
    ensures IsText(job.FinalOutput(i))
  {
    FixedTexts();
    var node := job.nodes[job.order[i]];
    var count := Decimal(|node.data.variables|);
    DecimalIsText(|node.data.variables|);
    hide IsText, Decimal;
    JoinedTexts("Variáveis definidas: ", count);
    JoinedTexts("Variáveis definidas: " + count, "\n");
    JoinedTexts(node.data.message, "\n");
    JoinedTexts("Tipo de nó desconhecido: ", node.kind);
    JoinedTexts("Tipo de nó desconhecido: " + node.kind, "\n");
  }

  /** Every message but a line is made of the node's texts and fixed ones. */
  lemma NodeMessagesAreText(job: Job, i: nat)
    requires i < |job.order| && job.Known(i) && TextNodes(job.nodes)
    ensures Storable(job.RunningMessage(i)) && Storable(job.FinalMessage(i)) && Storable(job.SkipMessage(i))
    ensures i == job.Stop() ==> Storable(job.Closing()[0])
  {
    var node := job.nodes[job.order[i]];
    assert TextNode(node);
    hide IsText, Job.FinalOutput, Job.OutcomeAt;
    FixedTexts();
    FinalOutputIsText(job, i);
  }

  lemma LineIsText(m: Progress, line: string)
    requires Storable(m)
    ensures Accepted(LineMessage(m, line)) <==> IsText(line)
  {
    FixedTexts();
    JoinedTexts(line, "\n");
  }

  lemma LinesAppend(m: Progress, lines: seq<string>, line: string)
    ensures LineMessages(m, lines + [line]) == LineMessages(m, lines) + [LineMessage(m, line)]
  {
    assert (lines + [line])[..|lines|] == lines;
  }

  lemma {:induction false} DeliveredLines(m: Progress, lines: seq<string>)
    requires Storable(m)
    ensures Delivered(LineMessages(m, lines)) == LineMessages(m, TextLines(lines))
  {
    if lines != [] {
      hide Delivered, Accepted, Storable, IsText;
      var init, last := lines[..|lines| - 1], lines[|lines| - 1];
      DeliveredLines(m, init);
      DeliveredConcat(LineMessages(m, init), [LineMessage(m, last)]);
      DeliveredOne(LineMessage(m, last));
      LineIsText(m, last);
      LinesAppend(m, TextLines(init), last);
      assert TextLines(lines) == if IsText(last) then TextLines(init) + [last] else TextLines(init);
    }
  }

  lemma DeliveredSegment(job: Job, i: nat)
    requires i < |job.order| && job.Known(i) && TextNodes(job.nodes)
    ensures Delivered(job.Segment(i)) == Body(job, i) + Final(job, i)
  {
    NodeMessagesAreText(job, i);
    hide Job.FinalMessage, Job.RunningMessage, TextNodes, Delivered, Job.OutcomeAt, TextLines;
    DeliveredOne(job.FinalMessage(i));
    if job.IsStep(i) {
      var running, lines := job.RunningMessage(i), job.OutcomeAt(i).lines;
      DeliveredOne(running);
      RunningParses(job, i);
      DeliveredLines(running, lines);
      DeliveredConcat([running], LineMessages(running, lines));
      DeliveredConcat([running] + LineMessages(running, lines), [job.FinalMessage(i)]);
    }
  }

  lemma RunningParses(job: Job, i: nat)
    requires i < |job.order| && job.Known(i)
    ensures Parses(job.RunningMessage(i))
  {
  }

  lemma DeliveredPart(job: Job, i: nat)
    requires i < |job.order| && job.Known(i) && TextNodes(job.nodes)
    ensures Delivered(job.Part(i)) == if i <= job.Stop() then Body(job, i) + Final(job, i) else [job.SkipMessage(i)]
  {
    if i <= job.Stop() {
      DeliveredSegment(job, i);
    } else {
      NodeMessagesAreText(job, i);
      DeliveredOne(job.SkipMessage(i));
    }
  }

  /** Of the node at i the server stores its body, its final message if it parses, and the closing message. */
  lemma ReceivedIsDelivered(job: Job, id: NodeId, i: nat)
    requires PositionOf(job.order, id, i) && i < |job.order| && job.Known(i) && TextNodes(job.nodes)
    ensures ForNode(Delivered(job.Transcript()), id) == Received(job, i)
  {
    NodeMessagesAreText(job, i);
    hide Body, Final, Job.Part, Job.Segment, Job.SkipMessage, TextNodes;
    DeliveredForNode(job.Transcript(), id);
    NodeReports(job, id, i);
    DeliveredPart(job, i);
    if i == job.Stop() {
      DeliveredConcat(job.Part(i), job.Closing());
      DeliveredOne(job.Closing()[0]);
    }
  }

  // What that leaves in the row.

  predicate IsProcess(node: ScriptNode) {
    node.kind == "shell" || node.kind == "download"
  }

  /** What the process of a shell or download node does, asked for the node's own command or download. */
  function ProcessOf(job: Job, i: nat, node: ScriptNode): Outcome
    requires i < |job.order|
  {
    var data := node.data;
    job.host.shell(i, if node.kind == "shell" then Command(data.command, data.powershell, data.timeoutSeconds)
                      else Download(data.url, data.destination, data.timeoutSeconds), job.EnvAt(i))
  }

  /** The text that the node at i leaves in its row. */
  function FinalText(job: Job, i: nat, node: ScriptNode): string
    requires i < |job.order|
  {
    if i > job.Stop() then "Pulado devido a falha em passo anterior.\n"
    else if node.kind == "variable" then "Variáveis definidas: " + Decimal(|node.data.variables|) + "\n"
    else if node.kind == "notify" then node.data.message + "\n"
    else if IsProcess(node) then Joined(TextLines(ProcessOf(job, i, node).lines))
    else "Tipo de nó desconhecido: " + node.kind + "\n"
  }

  /** The code that the node at i leaves in its row: none if it does not fit in 32 signed bits. */
  function FinalCode(job: Job, i: nat, node: ScriptNode): Option<int>
    requires i < |job.order|
  {
    if i > job.Stop() then Some(-1)
    else if node.kind == "variable" || node.kind == "notify" then Some(0)
    else if IsProcess(node) then
      var c := ProcessOf(job, i, node).exitCode;
      if -0x8000_0000 <= c < 0x8000_0000 then Some(c) else None
    else Some(-1)
  }

  lemma OutputsOfBody(job: Job, i: nat)
    requires i < |job.order| && job.Known(i)
    ensures Outputs(Body(job, i)) == Joined(TextLines(job.OutcomeAt(i).lines))
  {
    if job.IsStep(i) {
      hide Job.OutcomeAt, Joined;
      var running, lines := job.RunningMessage(i), TextLines(job.OutcomeAt(i).lines);
      OutputsOfOne(running);
      OutputsOfLines(running, lines);
      OutputsConcat([running], LineMessages(running, lines));
      assert "" + Joined(lines) == Joined(lines);
    }
  }

  /** Only a process can end with a code that does not parse, and then the final message has no text. */
  lemma OutputsOfFinal(job: Job, i: nat)
    requires i < |job.order| && job.Known(i)
    ensures Outputs(Final(job, i)) == job.FinalOutput(i)
  {
    OutputsOfOne(job.FinalMessage(i));
  }

  lemma FinalTextIs(job: Job, i: nat)
    requires i < |job.order| && job.Known(i) && i <= job.Stop()
    ensures FinalText(job, i, job.nodes[job.order[i]]) ==
            Joined(TextLines(job.OutcomeAt(i).lines)) + job.FinalOutput(i)
  {
    hide Job.EnvAt, Job.Stop, Decimal;
    var text := FinalText(job, i, job.nodes[job.order[i]]);
    assert "" + text == text && text + "" == text;
  }

  lemma OutputsOfReceived(job: Job, i: nat)
    requires i < |job.order| && job.Known(i)
    ensures Outputs(Received(job, i)) == FinalText(job, i, job.nodes[job.order[i]])
  {
    if i > job.Stop() {
      OutputsOfOne(job.SkipMessage(i));
    } else {
      FinalTextIs(job, i);
      OutputsOfBody(job, i);
      OutputsOfFinal(job, i);
      hide Body, Final, FinalText, Job.FinalOutput, Job.OutcomeAt, Joined;
      OutputsConcat(Body(job, i), Final(job, i));
      if i == job.Stop() {
        OutputsConcat(Body(job, i) + Final(job, i), job.Closing());
        OutputsOfOne(job.Closing()[0]);
        assert Outputs(Body(job, i) + Final(job, i)) + "" == Outputs(Body(job, i) + Final(job, i));
      }
    }
  }

  lemma {:induction false} NoCodeAtAll(messages: seq<Progress>)
    requires forall m :: m in messages ==> m.exitCode.None?
    ensures LastExitCode(messages) == None
  {
    if messages != [] {
      NoCodeAtAll(messages[..|messages| - 1]);
    }
  }

  lemma CodeAppend(messages: seq<Progress>, m: Progress)
    ensures LastExitCode(messages + [m]) == if m.exitCode.Some? then m.exitCode else LastExitCode(messages)
  {
    assert (messages + [m])[..|messages|] == messages;
  }

  lemma FinalCodeIs(job: Job, i: nat)
    requires i < |job.order| && job.Known(i)
    ensures FinalCode(job, i, job.nodes[job.order[i]]) ==
            if i > job.Stop() then Some(-1)
            else if Parses(job.FinalMessage(i)) then Some(job.OutcomeAt(i).exitCode)
            else None
  {
    hide Job.EnvAt, Job.Stop, Job.FinalOutput;
  }

  /** The node's code survives the closing message, which has none. */
  lemma CodeOfReceived(job: Job, i: nat)
    requires i < |job.order| && job.Known(i)
    ensures LastExitCode(Received(job, i)) == FinalCode(job, i, job.nodes[job.order[i]])
  {
    BodyHasNoCode(job, i);
    FinalCodeIs(job, i);
    hide Body, Job.OutcomeAt, Job.FinalOutput, FinalCode;
    NoCodeAtAll(Body(job, i));
    if i > job.Stop() {
      CodeAppend([], job.SkipMessage(i));
      assert [] + [job.SkipMessage(i)] == [job.SkipMessage(i)];
    } else {
      if Parses(job.FinalMessage(i)) {
        CodeAppend(Body(job, i), job.FinalMessage(i));
      } else {
        assert Body(job, i) + Final(job, i) == Body(job, i);
      }
      if i == job.Stop() {
        CodeAppend(Body(job, i) + Final(job, i), job.Closing()[0]);
      }
    }
  }

  /** The first and the last message give the row its label and its status. */
  lemma EndsOfReceived(job: Job, i: nat)
    requires i < |job.order| && job.Known(i)
    ensures Received(job, i) != []
    ensures Received(job, i)[|Received(job, i)| - 1].status == if i < job.Stop() then Done else Failed
    ensures Received(job, i)[0].nodeLabel == Caption(job.nodes[job.order[i]])
  {
    hide Job.FinalOutput;
    if i < job.Stop() {
      assert !job.Fails(i);
    }
  }

  // ---------------------------------------------------------------------------------------------
  // Times

  lemma {:induction false} FirstRunningFinds(sent: seq<Stamped>)
    ensures FirstRunning(sent).Some? <==> exists k :: 0 <= k < |sent| && sent[k].p.status == Running
  {
    if sent != [] {
      FirstRunningFinds(sent[1..]);
      assert forall k :: 1 <= k < |sent| ==> sent[k] == sent[1..][k - 1];
    }
  }

  lemma RunningIsTimed(sent: seq<Stamped>)
    ensures FirstRunning(sent).Some? <==> exists m :: m in Messages(sent) && m.status == Running
  {
    FirstRunningFinds(sent);
    hide FirstRunning;
    if k :| 0 <= k < |sent| && sent[k].p.status == Running {
      assert Messages(sent)[k].status == Running;
    }
  }

  lemma RunningIsReceived(job: Job, i: nat)
    requires i < |job.order| && job.Known(i)
    ensures (exists m :: m in Received(job, i) && m.status == Running) <==> i <= job.Stop() && job.IsStep(i)
  {
    hide Job.FinalOutput;
    if i <= job.Stop() && job.IsStep(i) {
      assert job.RunningMessage(i) == Received(job, i)[0];
    }
  }

  // ---------------------------------------------------------------------------------------------
  // The row of a node

  /** What the row of a node, at position i of the order, must be once the run is over. */
  ghost predicate FinalRow(job: Job, i: nat, node: ScriptNode, row: StepRow)
    requires i < |job.order|
  {
    && row.caption == (if node.data.caption == "" then node.kind else node.data.caption)
    && row.status == (if i < job.Stop() then Done else Failed)
    && row.output == FinalText(job, i, node)
    && row.exitCode == FinalCode(job, i, node)
    && (row.startedAt.Some? <==> i <= job.Stop() && node.kind != "variable" && node.kind != "notify")
    && row.finishedAt.Some?
  }

  lemma SummaryOfReceived(job: Job, i: nat, sent: seq<Stamped>)
    requires i < |job.order| && job.Known(i) && Messages(sent) == Received(job, i)
    ensures Summary(sent).Some? && FinalRow(job, i, job.nodes[job.order[i]], Summary(sent).value)
  {
    hide Job.FinalOutput, Job.OutcomeAt, FinalText, FinalCode, Received, Outputs, LastExitCode, FirstRunning;
    OutputsOfReceived(job, i);
    CodeOfReceived(job, i);
    EndsOfReceived(job, i);
    RunningIsTimed(sent);
    RunningIsReceived(job, i);
  }

  // ---------------------------------------------------------------------------------------------
  // End to end

  /** The jobs are runs of one well-formed script graph, each on its own host with its own order. */
  ghost predicate RunsOf(nodes: seq<ScriptNode>, edges: seq<Edge>, jobs: map<ResultId, Job>) {
    && WellFormed(nodes, edges) && (forall node :: node in nodes ==> TextNode(node))
    && forall r :: r in jobs ==> jobs[r].nodes == NodeMap(nodes) && KahnOrder(nodes, edges, jobs[r].order)
  }

  /** What the server receives from each agent. */
  function Traces(jobs: map<ResultId, Job>): map<ResultId, seq<Progress>> {
    map r | r in jobs :: Delivered(jobs[r].Transcript())
  }

  /** In a well-formed graph every ordered id is a node. */
  lemma OrderIsKnown(nodes: seq<ScriptNode>, edges: seq<Edge>, job: Job, i: nat)
    requires WellFormed(nodes, edges) && KahnOrder(nodes, edges, job.order) && job.nodes == NodeMap(nodes)
    requires i < |job.order|
    ensures job.Known(i)
  {
    NodeMapExactly(nodes, job.order[i]);
    assert job.order[i] in Vertices(nodes, edges);
    assert forall k :: 0 <= k < |edges| ==> edges[k] in edges;
  }

  lemma {:induction false} DeliveredKeeps(trace: seq<Progress>)
    ensures forall m :: m in Delivered(trace) ==> m in trace && Storable(m)
    ensures trace != [] && Accepted(trace[|trace| - 1]) ==>
      Delivered(trace) != [] && Delivered(trace)[|Delivered(trace)| - 1] == trace[|trace| - 1]
  {
    if trace != [] {
      DeliveredKeeps(trace[..|trace| - 1]);
      assert trace == trace[..|trace| - 1] + [trace[|trace| - 1]];
    }
  }

  lemma {:induction false} NodeMapIsText(nodes: seq<ScriptNode>)
    requires forall node :: node in nodes ==> TextNode(node)
    ensures TextNodes(NodeMap(nodes))
  {
    if nodes != [] {
      var init, last := nodes[..|nodes| - 1], nodes[|nodes| - 1];
      hide TextNode;
      assert last in nodes && forall node :: node in init ==> node in nodes;
      NodeMapIsText(init);
      IdIsText(last);
    }
  }

  lemma IdIsText(node: ScriptNode)
    requires TextNode(node)
    ensures IsText(node.id)
  {
  }

  /** The last message of a run is always accepted: it has code 0 or none. */
  lemma LastMessageIsAccepted(job: Job)
    requires TextNodes(job.nodes) && (job.order != [] ==> job.Known(|job.order| - 1))
    ensures var t := job.Transcript(); t != [] && Accepted(t[|t| - 1])
  {
    var n := |job.order|;
    if n == 0 {
      FixedTexts();
    } else {
      if job.Stop() == n {
        NodeMessagesAreText(job, n - 1);
        hide Job.FinalOutput, Storable, TextNodes;
        assert !job.Fails(n - 1);
        var part := job.Part(n - 1);
        assert part != [] && part[|part| - 1] == job.FinalMessage(n - 1);
      } else {
        NodeMessagesAreText(job, job.Stop());
        hide Job.FinalOutput, Storable, TextNodes;
        assert Parses(job.Closing()[0]);
      }
    }
  }

  /** What the server accepts of a run ends with an all-done message and closes the device with the verdict. */
  lemma TranscriptWellClosed(nodes: seq<ScriptNode>, edges: seq<Edge>, job: Job)
    requires WellFormed(nodes, edges) && KahnOrder(nodes, edges, job.order) && job.nodes == NodeMap(nodes)
    requires forall node :: node in nodes ==> TextNode(node)
    ensures P.WellClosed(Delivered(job.Transcript())) && P.ClosingStatus(Delivered(job.Transcript())) == Verdict(job)
  {
    if job.order != [] {
      OrderIsKnown(nodes, edges, job, |job.order| - 1);
    }
    NodeMapIsText(nodes);
    LastMessageIsAccepted(job);
    hide Job.Transcript, Delivered, Accepted, Storable, TextNode, TextNodes;
    AllDoneMessagesAgree(job);
    ClosesExactly(job);
    DeliveredKeeps(job.Transcript());
    var t := job.Transcript();
    assert t[|t| - 1] in t;
  }

  lemma {:induction false} AboutMessages(sent: seq<Stamped>, n: NodeId)
    ensures Messages(P.About(sent, n)) == ForNode(Messages(sent), n)
  {
    if sent != [] {
      var init, last := sent[..|sent| - 1], sent[|sent| - 1];
      AboutMessages(init, n);
      assert sent == init + [last];
      MessagesAppend(init, last);
      P.AboutAppend(init, last, n);
      MessagesAppend(P.About(init, n), last);
      assert (Messages(init) + [last.p])[..|init|] == Messages(init);
    }
  }

  /** Whatever the interleaving, once every agent has had its turns: each device is done exactly when none of its
      nodes failed, and the run carries the aggregate of all its devices. */
  lemma RunsAreClosed(nodes: seq<ScriptNode>, edges: seq<Edge>, jobs: map<ResultId, Job>,
                      db0: Db, schedule: seq<P.Turn>, r: ResultId)
    requires RunsOf(nodes, edges, jobs) && P.Dispatched(db0, Traces(jobs)) && r in jobs
    requires forall q :: q in jobs && db0.results[q].runId == db0.results[r].runId ==>
      P.Turns(schedule, q) >= 5 * |Traces(jobs)[q]|
    ensures var db := P.Exec(P.Start(db0, Traces(jobs)), schedule).db; var run := db0.results[r].runId;
      && r in db.results && run in db.runs
      && db.results[r].status == (if SomeNodeFails(jobs[r]) then Failed else Done)
      && db.runs[run].status == P.Aggregate(db, run)
  {
    var traces := Traces(jobs);
    var s := P.Exec(P.Start(db0, traces), schedule);
    forall q | q in s.agents && q in traces && db0.results[q].runId == db0.results[r].runId
      ensures P.Finished(s.agents[q])
    {
      P.EnoughTurnsFinish(db0, traces, schedule, q);
    }
    P.ClosedWhenAllFinished(db0, traces, schedule, r);
    TranscriptWellClosed(nodes, edges, jobs[r]);
  }

  /** Whatever the interleaving, an agent that has had its turns leaves, for every node of the script that its order
      holds, one row with the node's own label, status, text and exit code, or the skip after a failure. */
  lemma RowsAreFinal(nodes: seq<ScriptNode>, edges: seq<Edge>, jobs: map<ResultId, Job>,
                     db0: Db, schedule: seq<P.Turn>, r: ResultId, node: ScriptNode, i: nat)
    requires RunsOf(nodes, edges, jobs) && P.Dispatched(db0, Traces(jobs)) && r in jobs
    requires P.Turns(schedule, r) >= 5 * |Traces(jobs)[r]|
    requires node in nodes && i < |jobs[r].order| && PositionOf(jobs[r].order, node.id, i)
    ensures var row := P.Row(P.Exec(P.Start(db0, Traces(jobs)), schedule).db, r, node.id);
      row.Some? && FinalRow(jobs[r], i, node, row.value)
  {
    var job := jobs[r];
    var about := StoredMessages(nodes, edges, jobs, db0, schedule, r, node.id);
    OrderIsKnown(nodes, edges, job, i);
    NodeMapIsText(nodes);
    NodeMapFinds(nodes, node);
    hide P.Dispatched, P.Exec, P.Row, Summary, FinalRow, ForNode, Delivered, Received;
    ReceivedIsDelivered(job, node.id, i);
    SummaryOfReceived(job, i, about);
  }

  /** Every other id, a node on or behind a cycle included, leaves no row. */
  lemma NoOtherRows(nodes: seq<ScriptNode>, edges: seq<Edge>, jobs: map<ResultId, Job>,
                    db0: Db, schedule: seq<P.Turn>, r: ResultId, n: NodeId)
    requires RunsOf(nodes, edges, jobs) && P.Dispatched(db0, Traces(jobs)) && r in jobs
    requires P.Turns(schedule, r) >= 5 * |Traces(jobs)[r]|
    requires jobs[r].order != [] && n !in jobs[r].order
    ensures P.Row(P.Exec(P.Start(db0, Traces(jobs)), schedule).db, r, n) == None
  {
    var job := jobs[r];
    var about := StoredMessages(nodes, edges, jobs, db0, schedule, r, n);
    DeliveredForNode(job.Transcript(), n);
    NodeReports(job, n, |job.order|);
  }

  /** The messages behind one row. */
  lemma StoredMessages(nodes: seq<ScriptNode>, edges: seq<Edge>, jobs: map<ResultId, Job>,
                       db0: Db, schedule: seq<P.Turn>, r: ResultId, n: NodeId) returns (about: seq<Stamped>)
    requires RunsOf(nodes, edges, jobs) && P.Dispatched(db0, Traces(jobs)) && r in jobs
    requires P.Turns(schedule, r) >= 5 * |Traces(jobs)[r]|
    ensures P.Row(P.Exec(P.Start(db0, Traces(jobs)), schedule).db, r, n) == Summary(about)
    ensures Messages(about) == ForNode(Delivered(jobs[r].Transcript()), n)
  {
    var traces := Traces(jobs);
    var s := P.Exec(P.Start(db0, traces), schedule);
    P.EnoughTurnsFinish(db0, traces, schedule, r);
    P.FinishedSentAll(db0, traces, schedule, r);
    P.RowsSumUpMessages(db0, traces, schedule);
    about := P.About(s.agents[r].sent, n);
    assert P.Row(s.db, r, n) == Summary(about);
    AboutMessages(s.agents[r].sent, n);
  }

  /** A script whose order is empty (no nodes, or every node on or behind a cycle) leaves one done row with an empty
      node id. */
  lemma EmptyOrderRow(nodes: seq<ScriptNode>, edges: seq<Edge>, jobs: map<ResultId, Job>,
                      db0: Db, schedule: seq<P.Turn>, r: ResultId, n: NodeId)
    requires RunsOf(nodes, edges, jobs) && P.Dispatched(db0, Traces(jobs)) && r in jobs
    requires P.Turns(schedule, r) >= 5 * |Traces(jobs)[r]|
    requires jobs[r].order == []
    ensures var row := P.Row(P.Exec(P.Start(db0, Traces(jobs)), schedule).db, r, n);
      if n == "" then row.Some? && row.value.status == Done && row.value.output == "" && row.value.exitCode == None
      else row == None
  {
    var traces, job := Traces(jobs), jobs[r];
    var s := P.Exec(P.Start(db0, traces), schedule);
    P.EnoughTurnsFinish(db0, traces, schedule, r);
    P.FinishedSentAll(db0, traces, schedule, r);
    P.RowsSumUpMessages(db0, traces, schedule);
    var sent := s.agents[r].sent;
    assert P.Row(s.db, r, n) == Summary(P.About(sent, n));
    EmptyTranscript(job);
    EmptyOrderSummary(sent, n);
  }

  /** The one message of an empty order. */
  const EMPTY: Progress := Progress("", "", Done, "", None, true)

  lemma EmptyTranscript(job: Job)
    requires job.order == []
    ensures Delivered(job.Transcript()) == [EMPTY] && EMPTY.nodeId == ""
  {
    FixedTexts();
    assert Accepted(EMPTY);
    hide Accepted;
    DeliveredOne(EMPTY);
  }

  lemma EmptyOrderSummary(sent: seq<Stamped>, n: NodeId)
    requires Messages(sent) == [EMPTY] && EMPTY.nodeId == ""
    ensures var row := Summary(P.About(sent, n));
      if n == "" then row.Some? && row.value.status == Done && row.value.output == "" && row.value.exitCode == None
      else row == None
  {
    hide *;
    OneSent(sent, EMPTY);
    AboutOne(sent[0], n);
    if n == "" {
      SummaryOfOne(sent[0]);
    } else {
      SummaryOfNone();
    }
  }

  lemma OneSent(sent: seq<Stamped>, p: Progress)
    requires Messages(sent) == [p]
    ensures sent != [] && sent == [sent[0]] && sent[0].p == p
  {
  }

  lemma AboutOne(m: Stamped, n: NodeId)
    ensures P.About([m], n) == if m.p.nodeId == n then [m] else []
  {
    assert [m][..0] == [];
  }

  lemma SummaryOfOne(m: Stamped)
    requires m.p == EMPTY
    ensures var row := Summary([m]);
      row.Some? && row.value.status == Done && row.value.output == "" && row.value.exitCode == None
  {
    assert [] + [m] == [m];
    hide Summary;
    SummaryAppend([], m);
    SummaryOfNone();
  }

  lemma SummaryOfNone()
    ensures Summary([]) == None
  {
  }
}
