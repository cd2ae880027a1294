/** The agent's script interpreter: one pass over the order, fail-stop, reporting every step. */
module Agent {
  import opened Common
  import opened Script
  import opened TopoSort

  // ---------------------------------------------------------------------------------------------
  // What the agent asks of its host

  datatype Request =
    | Command(command: string, powershell: bool, timeoutSeconds: int)
    | Download(url: string, destination: string, timeoutSeconds: int)

  /** What a process did: the lines it printed, in the order they arrived, and its exit code. */
  datatype Outcome = Outcome(lines: seq<string>, exitCode: int)

  /** The host as an oracle: os.Expand over the script variables and the process environment, and the
      process started for the node at a position of the order, with the variables it was given. */
  datatype Host = Host(expand: (string, Env) -> string, shell: (nat, Request, Env) -> Outcome)

  /** One started process. */
  datatype Call = Call(index: nat, request: Request, vars: Env)

  // ---------------------------------------------------------------------------------------------
  // Small pieces

  function Digit(d: nat): char
    requires d < 10
  {
    "0123456789"[d]
  }

  /** fmt's %d of a length. */
  function Decimal(n: nat): string {
    if n < 10 then [Digit(n)] else Decimal(n / 10) + [Digit(n % 10)]
  }

  function Caption(node: ScriptNode): string {
    if node.data.caption == "" then node.kind else node.data.caption
  }

  /** The variables after assigning the bindings left to right, each seeing the ones before it. */
  function BindAll(host: Host, vars: Env, bindings: seq<Variable>): Env {
    if bindings == [] then vars
    else
      var before := BindAll(host, vars, bindings[..|bindings| - 1]);
      var last := bindings[|bindings| - 1];
      before[last.key := host.expand(last.value, before)]
  }

  /** nodeMap: the last node with an id wins. */
  function NodeMap(nodes: seq<ScriptNode>): map<NodeId, ScriptNode> {
    if nodes == [] then map[]
    else
      var last := nodes[|nodes| - 1];
      NodeMap(nodes[..|nodes| - 1])[last.id := last]
  }

  function LineMessage(m: Progress, line: string): Progress {
    m.(status := Running, output := line + "\n", exitCode := None, allDone := false)
  }

  function LineMessages(m: Progress, lines: seq<string>): seq<Progress> {
    if lines == [] then [] else LineMessages(m, lines[..|lines| - 1]) + [LineMessage(m, lines[|lines| - 1])]
  }

  // ---------------------------------------------------------------------------------------------
  // What a run must report, as a function of the order and the oracle

  datatype Job = Job(host: Host, nodes: map<NodeId, ScriptNode>, order: seq<NodeId>) {

    predicate Known(i: nat)
      requires i < |order|
    {
      order[i] in nodes
    }

    predicate IsVariable(i: nat)
      requires i < |order|
    {
      Known(i) && nodes[order[i]].kind == "variable"
    }

    /** Neither a variable nor a notify node: announced as running before it acts. */
    predicate IsStep(i: nat)
      requires i < |order|
    {
      Known(i) && nodes[order[i]].kind != "variable" && nodes[order[i]].kind != "notify"
    }

    /** The variables gathered from the nodes before position i. */
    function EnvAt(i: nat): Env
      requires i <= |order|
    {
      if i == 0 then map[]
      else if IsVariable(i - 1) then BindAll(host, EnvAt(i - 1), nodes[order[i - 1]].data.variables)
      else EnvAt(i - 1)
    }

    /** The process that the node at i starts, if it starts one. */
    function RequestAt(i: nat): Option<Request>
      requires i < |order|
    {
      if !IsStep(i) then None
      else
        var node := nodes[order[i]];
        if node.kind == "shell" then
          Some(Command(node.data.command, node.data.powershell, node.data.timeoutSeconds))
        else if node.kind == "download" then
          Some(Download(node.data.url, node.data.destination, node.data.timeoutSeconds))
        else None
    }

    /** What happens at i if the run gets there; a step of an unknown kind fails with -1. */
    function OutcomeAt(i: nat): Outcome
      requires i < |order|
    {
      match RequestAt(i)
      case Some(request) => host.shell(i, request, EnvAt(i))
      case None => Outcome([], if IsStep(i) then -1 else 0)
    }

    predicate Fails(i: nat)
      requires i < |order|
    {
      OutcomeAt(i).exitCode != 0
    }

    /** The first failing position at or after i, or the length of the order. */
    function FirstFailure(i: nat): (f: nat)
      requires i <= |order|
      ensures i <= f <= |order|
      ensures f < |order| ==> Fails(f)
      ensures forall j :: i <= j < f ==> !Fails(j)
      decreases |order| - i
    {
      if i == |order| || Fails(i) then i else FirstFailure(i + 1)
    }

    /** The position where the run stops executing. */
    function Stop(): nat {
      FirstFailure(0)
    }

    function Message(i: nat, status: Status, output: string, exitCode: Option<int>, allDone: bool): Progress
      requires i < |order| && Known(i)
    {
      Progress(order[i], Caption(nodes[order[i]]), status, output, exitCode, allDone)
    }

    function FinalOutput(i: nat): string
      requires i < |order| && Known(i)
    {
      var node := nodes[order[i]];
      if node.kind == "variable" then "Variáveis definidas: " + Decimal(|node.data.variables|) + "\n"
      else if node.kind == "notify" then node.data.message + "\n"
      else if RequestAt(i).Some? then ""
      else "Tipo de nó desconhecido: " + node.kind + "\n"
    }

    function FinalMessage(i: nat): Progress
      requires i < |order| && Known(i)
    {
      Message(i, if Fails(i) then Failed else Done, FinalOutput(i), Some(OutcomeAt(i).exitCode), i == |order| - 1)
    }

    function RunningMessage(i: nat): Progress
      requires i < |order| && Known(i)
    {
      Message(i, Running, "", None, false)
    }

    /** The messages of the node at i when it executes. */
    function Segment(i: nat): seq<Progress>
      requires i < |order|
    {
      if !Known(i) then []
      else if !IsStep(i) then [FinalMessage(i)]
      else [RunningMessage(i)] + LineMessages(RunningMessage(i), OutcomeAt(i).lines) + [FinalMessage(i)]
    }

    function SkipMessage(i: nat): Progress
      requires i < |order| && Known(i)
    {
      Message(i, Failed, "Pulado devido a falha em passo anterior.\n", Some(-1), false)
    }

    /** What the node at i reports before the run is closed. */
    function Part(i: nat): seq<Progress>
      requires i < |order|
    {
      if i <= Stop() then Segment(i)
      else if Known(i) then [SkipMessage(i)]
      else []
    }

    function Reports(n: nat): seq<Progress>
      requires n <= |order|
    {
      if n == 0 then [] else Reports(n - 1) + Part(n - 1)
    }

    /** The last message of a failed run, about the node that failed. */
    function Closing(): seq<Progress> {
      if Stop() < |order| then [Message(Stop(), Failed, "", None, true)] else []
    }

    /** Every message of the run. */
    function Transcript(): seq<Progress> {
      if order == [] then [Progress("", "", Done, "", None, true)] else Reports(|order|) + Closing()
    }

    function CallsBefore(n: nat): seq<Call>
      requires n <= |order|
    {
      if n == 0 then []
      else
        CallsBefore(n - 1) +
        match RequestAt(n - 1)
        case Some(request) => [Call(n - 1, request, EnvAt(n - 1))]
        case None => []
    }

    /** Every process of the run: none after the first failure. */
    function Calls(): seq<Call> {
      CallsBefore(if Stop() == |order| then |order| else Stop() + 1)
    }
  }

  // ---------------------------------------------------------------------------------------------
  // What the small pieces are

  /** Node k is the last one with the id. */
  predicate LastWithId(nodes: seq<ScriptNode>, k: nat, id: NodeId) {
    k < |nodes| && nodes[k].id == id && forall j :: k < j < |nodes| ==> nodes[j].id != id
  }

  lemma LastWithIdBelow(nodes: seq<ScriptNode>, id: NodeId)
    requires nodes != [] && nodes[|nodes| - 1].id != id
    ensures forall k: nat :: LastWithId(nodes, k, id) <==> LastWithId(nodes[..|nodes| - 1], k, id)
  {
  }

  lemma LastOfAll(nodes: seq<ScriptNode>, id: NodeId, n: nat)
    requires n == |nodes| - 1 && nodes[n].id == id
    ensures forall k: nat :: LastWithId(nodes, k, id) <==> k == n
  {
  }

  /** The node map has exactly the ids of the nodes, each with the last node that carries it. */
  lemma {:induction false} NodeMapExactly(nodes: seq<ScriptNode>, id: NodeId)
    ensures id in NodeMap(nodes) <==> exists k :: 0 <= k < |nodes| && nodes[k].id == id
    ensures id in NodeMap(nodes) <==> exists k: nat :: LastWithId(nodes, k, id)
    ensures forall k: nat :: LastWithId(nodes, k, id) ==> NodeMap(nodes)[id] == nodes[k]
  {
    if nodes == [] {
      assert id !in NodeMap(nodes);
    } else {
      var n := |nodes| - 1;
      var init := nodes[..n];
      NodeMapExactly(init, id);
      assert NodeMap(nodes) == NodeMap(init)[nodes[n].id := nodes[n]];
      hide NodeMap;
      if nodes[n].id == id {
        LastOfAll(nodes, id, n);
        assert LastWithId(nodes, n, id);
      } else {
        LastWithIdBelow(nodes, id);
        assert forall k: nat :: LastWithId(init, k, id) ==> nodes[k] == init[k] && LastWithId(nodes, k, id);
      }
    }
  }

  /** With distinct ids every node is found under its own id. */
  lemma NodeMapFinds(nodes: seq<ScriptNode>, node: ScriptNode)
    requires DistinctIds(nodes) && node in nodes
    ensures node.id in NodeMap(nodes) && NodeMap(nodes)[node.id] == node
  {
    NodeMapExactly(nodes, node.id);
    var k: nat :| k < |nodes| && nodes[k] == node;
    assert LastWithId(nodes, k, node.id);
  }

  /** The number that decimal digits stand for. */
  function Number(digits: string): nat {
    if digits == "" then 0
    else
      var last := digits[|digits| - 1];
      10 * Number(digits[..|digits| - 1]) + if '0' <= last <= '9' then last as int - '0' as int else 0
  }

  /** A length is printed in decimal, without leading zeros. */
  lemma {:induction false} DecimalExactly(n: nat)
    ensures Decimal(n) != "" && Number(Decimal(n)) == n
    ensures forall c :: c in Decimal(n) ==> '0' <= c <= '9'
    ensures n > 0 ==> Decimal(n)[0] != '0'
  {
    if n >= 10 {
      DecimalExactly(n / 10);
      assert Decimal(n)[..|Decimal(n)| - 1] == Decimal(n / 10);
    } else {
      assert Decimal(n)[..0] == "";
    }
  }

  /** One message per line, in order, each with its line and nothing else. */
  lemma {:induction false} LineMessagesExactly(m: Progress, lines: seq<string>)
    ensures |LineMessages(m, lines)| == |lines|
    ensures forall k :: 0 <= k < |lines| ==>
      LineMessages(m, lines)[k] == Progress(m.nodeId, m.nodeLabel, Running, lines[k] + "\n", None, false)
  {
    if lines != [] {
      LineMessagesExactly(m, lines[..|lines| - 1]);
    }
  }

  /** The messages of a node that executes: a quiet node says done; any other announces itself, streams its lines and
      reports how it ended. */
  lemma SegmentExactly(job: Job, i: nat)
    requires i < |job.order| && job.Known(i)
    ensures var node, id, sent := job.nodes[job.order[i]], job.order[i], job.Segment(i);
      var caption := if node.data.caption == "" then node.kind else node.data.caption;
      var last := i == |job.order| - 1;
      if node.kind == "variable" then
        sent == [Progress(id, caption, Done,
                          "Variáveis definidas: " + Decimal(|node.data.variables|) + "\n", Some(0), last)]
      else if node.kind == "notify" then
        sent == [Progress(id, caption, Done, node.data.message + "\n", Some(0), last)]
      else
        var started := node.kind == "shell" || node.kind == "download";
        var code := job.OutcomeAt(i).exitCode;
        && |sent| == |job.OutcomeAt(i).lines| + 2
        && (!started ==> job.OutcomeAt(i) == Outcome([], -1))
        && sent[0] == Progress(id, caption, Running, "", None, false)
        && (forall k :: 0 <= k < |job.OutcomeAt(i).lines| ==>
              sent[k + 1] == Progress(id, caption, Running, job.OutcomeAt(i).lines[k] + "\n", None, false))
        && sent[|sent| - 1] ==
             Progress(id, caption, if code == 0 then Done else Failed,
                      if started then "" else "Tipo de nó desconhecido: " + node.kind + "\n", Some(code), last)
  {
    LineMessagesExactly(job.RunningMessage(i), job.OutcomeAt(i).lines);
    FinalMessageExactly(job, i);
    hide LineMessages, Decimal, Job.FinalMessage, Job.Fails, Job.FinalOutput;
  }

  /** How a node that executes reports its end. */
  lemma FinalMessageExactly(job: Job, i: nat)
    requires i < |job.order| && job.Known(i)
    ensures var node, code := job.nodes[job.order[i]], job.OutcomeAt(i).exitCode;
      && (node.kind == "variable" || node.kind == "notify" ==> code == 0)
      && job.FinalMessage(i) ==
         Progress(job.order[i], if node.data.caption == "" then node.kind else node.data.caption,
                  if code == 0 then Done else Failed,
                  if node.kind == "variable" then "Variáveis definidas: " + Decimal(|node.data.variables|) + "\n"
                  else if node.kind == "notify" then node.data.message + "\n"
                  else if node.kind == "shell" || node.kind == "download" then ""
                  else "Tipo de nó desconhecido: " + node.kind + "\n",
                  Some(code), i == |job.order| - 1)
  {
    hide Decimal;
  }

  /** What a started process is asked: the fields of its own node. */
  predicate Asks(node: ScriptNode, request: Request) {
    match request
    case Command(command, powershell, timeoutSeconds) =>
      && node.kind == "shell"
      && command == node.data.command && powershell == node.data.powershell
      && timeoutSeconds == node.data.timeoutSeconds
    case Download(url, destination, timeoutSeconds) =>
      && node.kind == "download"
      && url == node.data.url && destination == node.data.destination
      && timeoutSeconds == node.data.timeoutSeconds
  }

  /** Exactly shell and download nodes start a process, and it decides how they end. */
  lemma RequestExactly(job: Job, i: nat, request: Request)
    requires i < |job.order|
    ensures job.RequestAt(i) == Some(request) <==> job.Known(i) && Asks(job.nodes[job.order[i]], request)
    ensures job.RequestAt(i) == Some(request) ==> job.OutcomeAt(i) == job.host.shell(i, request, job.EnvAt(i))
  {
  }

  // ---------------------------------------------------------------------------------------------
  // The interpreter

  method BuildNodeMap(nodes: seq<ScriptNode>) returns (nodeMap: map<NodeId, ScriptNode>)
    ensures nodeMap == NodeMap(nodes)
  {
    nodeMap := map[];
    for i := 0 to |nodes|
      invariant nodeMap == NodeMap(nodes[..i])
    {
      assert nodes[..i + 1][..i] == nodes[..i];
      nodeMap := nodeMap[nodes[i].id := nodes[i]];
    }
    assert nodes[..|nodes|] == nodes;
  }

  method Assign(host: Host, vars: Env, bindings: seq<Variable>) returns (vars': Env)
    ensures vars' == BindAll(host, vars, bindings)
  {
    vars' := vars;
    for i := 0 to |bindings|
      invariant vars' == BindAll(host, vars, bindings[..i])
    {
      assert bindings[..i + 1][..i] == bindings[..i];
      vars' := vars'[bindings[i].key := host.expand(bindings[i].value, vars')];
    }
    assert bindings[..|bindings|] == bindings;
  }

  method StreamLines(m: Progress, lines: seq<string>, trace: seq<Progress>) returns (trace': seq<Progress>)
    ensures trace' == trace + LineMessages(m, lines)
  {
    trace' := trace;
    for i := 0 to |lines|
      invariant trace' == trace + LineMessages(m, lines[..i])
    {
      assert lines[..i + 1][..i] == lines[..i];
      trace' := trace' + [LineMessage(m, lines[i])];
    }
    assert lines[..|lines|] == lines;
  }

  method SkipRemaining(job: Job, from: nat, trace: seq<Progress>) returns (trace': seq<Progress>)
    requires job.Stop() < from <= |job.order| && trace == job.Reports(from)
    ensures trace' == job.Reports(|job.order|)
  {
    hide Job.Segment, Job.OutcomeAt;
    trace' := trace;
    for j := from to |job.order|
      invariant trace' == job.Reports(j)
    {
      if job.order[j] in job.nodes {
        var rem := job.nodes[job.order[j]];
        trace' := trace' + [Progress(job.order[j], Caption(rem), Failed,
                                     "Pulado devido a falha em passo anterior.\n", Some(-1), false)];
      }
    }
  }

  /** A variable or notify node: one done message, no process; an id without a node is passed over. */
  method RunQuietly(job: Job, i: nat, vars: Env, trace: seq<Progress>) returns (vars': Env, trace': seq<Progress>)
    requires i < |job.order| && !job.IsStep(i) && vars == job.EnvAt(i)
    ensures vars' == job.EnvAt(i + 1) && trace' == trace + job.Segment(i)
  {
    vars', trace' := vars, trace;
    if job.order[i] in job.nodes {
      var node := job.nodes[job.order[i]];
      var output := node.data.message + "\n";
      if node.kind == "variable" {
        vars' := Assign(job.host, vars, node.data.variables);
        output := "Variáveis definidas: " + Decimal(|node.data.variables|) + "\n";
      }
      trace' := trace + [Progress(job.order[i], Caption(node), Done, output, Some(0), i == |job.order| - 1)];
    }
  }

  /** A started process: its call, its streamed lines, its exit code. */
  method RunProcess(job: Job, i: nat, request: Request, vars: Env, running: Progress,
                    trace: seq<Progress>, calls: seq<Call>)
    returns (trace': seq<Progress>, calls': seq<Call>, exitCode: int)
    ensures var outcome := job.host.shell(i, request, vars);
      && trace' == trace + LineMessages(running, outcome.lines)
      && calls' == calls + [Call(i, request, vars)]
      && exitCode == outcome.exitCode
  {
    var outcome := job.host.shell(i, request, vars);
    calls' := calls + [Call(i, request, vars)];
    trace' := StreamLines(running, outcome.lines, trace);
    exitCode := outcome.exitCode;
  }

  /** An announced node: runs it and reports it, returning its exit code. */
  method RunStep(job: Job, i: nat, vars: Env, trace: seq<Progress>, calls: seq<Call>)
    returns (trace': seq<Progress>, calls': seq<Call>, exitCode: int)
    requires i < |job.order| && job.IsStep(i) && vars == job.EnvAt(i) && calls == job.CallsBefore(i)
    ensures trace' == trace + job.Segment(i)
    ensures calls' == job.CallsBefore(i + 1)
    ensures exitCode == job.OutcomeAt(i).exitCode
  {
    var nodeId := job.order[i];
    var node := job.nodes[nodeId];
    var running := Progress(nodeId, Caption(node), Running, "", None, false);
    trace' := trace + [running];
    calls' := calls;
    var finalOutput := "";
    if node.kind == "shell" {
      var request := Command(node.data.command, node.data.powershell, node.data.timeoutSeconds);
      trace', calls', exitCode := RunProcess(job, i, request, vars, running, trace', calls');
    } else if node.kind == "download" {
      var request := Download(node.data.url, node.data.destination, node.data.timeoutSeconds);
      trace', calls', exitCode := RunProcess(job, i, request, vars, running, trace', calls');
    } else {
      finalOutput := "Tipo de nó desconhecido: " + node.kind + "\n";
      exitCode := -1;
    }
    var nodeStatus := if exitCode != 0 then Failed else Done;
    trace' := trace' +
      [Progress(nodeId, Caption(node), nodeStatus, finalOutput, Some(exitCode), i == |job.order| - 1)];
  }

  method Interpret(job: Job) returns (trace: seq<Progress>, calls: seq<Call>)
    ensures trace == job.Transcript()
    ensures calls == job.Calls()
  {
    hide Job.Segment, Job.OutcomeAt, Job.RequestAt, BindAll, Job.SkipMessage;
    var vars: Env := map[];
    trace, calls := [], [];
    for i := 0 to |job.order|
      invariant i <= job.Stop()
      invariant vars == job.EnvAt(i)
      invariant trace == job.Reports(i) && calls == job.CallsBefore(i)
    {
      var id := job.order[i];
      if id !in job.nodes || job.nodes[id].kind == "variable" || job.nodes[id].kind == "notify" {
        QuietNodesPass(job, i);
        vars, trace := RunQuietly(job, i, vars, trace);
      } else {
        var exitCode;
        trace, calls, exitCode := RunStep(job, i, vars, trace, calls);
        StopsAtFailure(job, i);
        if exitCode != 0 {
          trace := SkipRemaining(job, i + 1, trace);
          trace := trace + [Progress(id, Caption(job.nodes[id]), Failed, "", None, true)];
          return;
        }
      }
    }
    if |job.order| == 0 {
      trace := trace + [Progress("", "", Done, "", None, true)];
    }
  }

  lemma QuietNodesPass(job: Job, i: nat)
    requires i < |job.order| && !job.IsStep(i) && i <= job.Stop()
    ensures i < job.Stop() && job.CallsBefore(i + 1) == job.CallsBefore(i)
  {
  }

  lemma StopsAtFailure(job: Job, i: nat)
    requires i < |job.order| && i <= job.Stop()
    ensures i == job.Stop() <==> job.OutcomeAt(i).exitCode != 0
  {
    if i < job.Stop() {
      assert !job.Fails(i);
    }
  }

  /** Besides what it sends and starts, the run reports the order it chose. */
  method RunScript(host: Host, nodes: seq<ScriptNode>, edges: seq<Edge>)
    returns (trace: seq<Progress>, calls: seq<Call>, order: seq<NodeId>)
    ensures forall v :: v in order ==> v in Vertices(nodes, edges)
    ensures DistinctIds(nodes) ==> KahnOrder(nodes, edges, order)
    ensures trace == Job(host, NodeMap(nodes), order).Transcript()
    ensures calls == Job(host, NodeMap(nodes), order).Calls()
  {
    var nodeMap := BuildNodeMap(nodes);
    order := Sort(nodes, edges);
    trace, calls := Interpret(Job(host, nodeMap, order));
  }
}
