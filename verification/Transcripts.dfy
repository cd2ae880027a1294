/** What a whole run reports: fail-stop, well closed, and every process started with the right variables. */
module Transcripts {
  import opened Common
  import opened Script
  import opened TopoSort
  import opened Cycles
  import opened Agent

  // ---------------------------------------------------------------------------------------------
  // The messages about one node

  function ForNode(trace: seq<Progress>, id: NodeId): seq<Progress> {
    if trace == [] then []
    else
      var last := trace[|trace| - 1];
      ForNode(trace[..|trace| - 1], id) + if last.nodeId == id then [last] else []
  }

  lemma {:induction false} ForNodeConcat(a: seq<Progress>, b: seq<Progress>, id: NodeId)
    ensures ForNode(a + b, id) == ForNode(a, id) + ForNode(b, id)
    ensures ForNode(a, id) == [] ==> ForNode(a + b, id) == ForNode(b, id)
    ensures ForNode(b, id) == [] ==> ForNode(a + b, id) == ForNode(a, id)
  {
    if b == [] {
      assert a + b == a;
    } else {
      var init := b[..|b| - 1];
      assert (a + b)[..|a + b| - 1] == a + init;
      ForNodeConcat(a, init, id);
    }
  }

  predicate AllFrom(trace: seq<Progress>, id: NodeId) {
    forall m :: m in trace ==> m.nodeId == id
  }

  lemma {:induction false} ForNodeUniform(trace: seq<Progress>, id: NodeId, other: NodeId)
    requires AllFrom(trace, id)
    ensures ForNode(trace, other) == if other == id then trace else []
  {
    if trace != [] {
      ForNodeUniform(trace[..|trace| - 1], id, other);
    }
  }

  lemma ForNodeAppend(a: seq<Progress>, b: seq<Progress>, from: NodeId, id: NodeId)
    requires AllFrom(b, from)
    ensures id != from ==> ForNode(a + b, id) == ForNode(a, id)
    ensures id == from ==> ForNode(a + b, id) == ForNode(a, id) + b
    ensures id == from && ForNode(a, id) == [] ==> ForNode(a + b, id) == b
  {
    ForNodeConcat(a, b, id);
    ForNodeUniform(b, from, id);
  }

  lemma {:induction false} LinesAreUniform(m: Progress, lines: seq<string>)
    ensures forall x :: x in LineMessages(m, lines) ==> x.nodeId == m.nodeId && x.status == Running && !x.allDone
  {
    if lines != [] {
      LinesAreUniform(m, lines[..|lines| - 1]);
    }
  }

  lemma PartIsUniform(job: Job, i: nat)
    requires i < |job.order|
    ensures AllFrom(job.Part(i), job.order[i])
  {
    if job.IsStep(i) {
      LinesAreUniform(job.RunningMessage(i), job.OutcomeAt(i).lines);
    }
  }

  /** i is the position of id in the order, or its length if id is not there. */
  predicate PositionOf(order: seq<NodeId>, id: NodeId, i: nat) {
    i <= |order| && forall j :: 0 <= j < |order| ==> (order[j] == id <==> j == i)
  }

  function Flat(parts: seq<seq<Progress>>): seq<Progress> {
    if parts == [] then [] else Flat(parts[..|parts| - 1]) + parts[|parts| - 1]
  }

  lemma FlatSnoc(parts: seq<seq<Progress>>)
    requires parts != []
    ensures Flat(parts) == Flat(parts[..|parts| - 1]) + parts[|parts| - 1]
  {
  }

  /** Picking out one owner's messages from owned parts finds exactly its part. */
  lemma {:induction false} ForNodeFlat(parts: seq<seq<Progress>>, owners: seq<NodeId>, id: NodeId, i: nat)
    requires |parts| == |owners| && PositionOf(owners, id, i)
    requires forall j :: 0 <= j < |parts| ==> AllFrom(parts[j], owners[j])
    ensures ForNode(Flat(parts), id) == if i < |parts| then parts[i] else []
  {
    if parts != [] {
      hide *;
      var n := |parts| - 1;
      PositionInPrefix(owners, id, i);
      ForNodeFlat(parts[..n], owners[..n], id, if i < n then i else n);
      ForNodeAppend(Flat(parts[..n]), parts[n], owners[n], id);
      FlatSnoc(parts);
    }
  }

  lemma PositionInPrefix(order: seq<NodeId>, id: NodeId, i: nat)
    requires order != [] && PositionOf(order, id, i)
    ensures var n := |order| - 1;
      PositionOf(order[..n], id, if i < n then i else n) && (order[n] == id <==> i == n) && i <= n + 1
  {
  }

  function Parts(job: Job, n: nat): (parts: seq<seq<Progress>>)
    requires n <= |job.order|
    ensures |parts| == n && forall i :: 0 <= i < n ==> parts[i] == job.Part(i)
  {
    if n == 0 then [] else Parts(job, n - 1) + [job.Part(n - 1)]
  }

  lemma PartsSnoc(job: Job, n: nat)
    requires n < |job.order|
    ensures Parts(job, n + 1) == Parts(job, n) + [job.Part(n)]
    ensures Parts(job, 0) == []
  {
    hide Job.Part;
  }

  lemma {:induction false} ReportsAreFlat(job: Job, n: nat)
    requires n <= |job.order|
    ensures job.Reports(n) == Flat(Parts(job, n))
  {
    if n > 0 {
      hide Parts, Job.Reports, Job.Part;
      ReportsAreFlat(job, n - 1);
      PartsSnoc(job, n - 1);
      ReportsAreParts(job, n);
      var init := Parts(job, n - 1);
      assert (init + [job.Part(n - 1)])[..|init|] == init;
    }
  }

  /** Fail-stop, node by node: up to the first failure a node reports its own segment, the failing one also the
      closing message, every later node one skip message; no other id is ever reported. */
  lemma NodeReports(job: Job, id: NodeId, i: nat)
    requires PositionOf(job.order, id, i) && job.order != []
    ensures i == |job.order| ==> ForNode(job.Transcript(), id) == []
    ensures i < |job.order| && i != job.Stop() ==> ForNode(job.Transcript(), id) == job.Part(i)
    ensures i < |job.order| && i == job.Stop() ==> ForNode(job.Transcript(), id) == job.Part(i) + job.Closing()
  {
    hide Job.Part, Job.Closing;
    var n := |job.order|;
    forall j | 0 <= j < n ensures AllFrom(job.Part(j), job.order[j]) {
      PartIsUniform(job, j);
    }
    ReportsAreFlat(job, n);
    ForNodeFlat(Parts(job, n), job.order, id, i);
    ClosingIsOwned(job);
    if job.Closing() == [] {
      assert job.Transcript() == job.Reports(n);
    } else {
      ForNodeAppend(job.Reports(n), job.Closing(), job.order[job.Stop()], id);
    }
  }

  lemma ClosingIsOwned(job: Job)
    ensures job.Closing() == [] <==> job.Stop() == |job.order|
    ensures job.Stop() < |job.order| ==> AllFrom(job.Closing(), job.order[job.Stop()])
  {
  }

  // ---------------------------------------------------------------------------------------------
  // The all-done messages

  ghost predicate SomeNodeFails(job: Job) {
    job.Stop() < |job.order|
  }

  function Verdict(job: Job): Status {
    if job.Stop() < |job.order| then Failed else Done
  }

  /** m reports the node at the last position of the order, executed. */
  predicate EndsWith(job: Job, m: Progress) {
    var n := |job.order|;
    0 < n <= job.Stop() + 1 && job.Known(n - 1) && m == job.FinalMessage(n - 1)
  }

  /** Before the closing message only the last position of the order says all done, with its own status. */
  lemma {:induction false} ReportsAllDone(job: Job, n: nat)
    requires n <= |job.order|
    ensures forall m :: m in job.Reports(n) && m.allDone ==> n == |job.order| && EndsWith(job, m)
  {
    hide *;
    if n == 0 {
      NoReports(job);
    } else {
      ReportsAllDone(job, n - 1);
      PartAllDone(job, n - 1);
      ReportsSnoc(job, n);
    }
  }

  lemma NoReports(job: Job)
    ensures job.Reports(0) == []
  {
  }

  lemma ReportsSnoc(job: Job, n: nat)
    requires 0 < n <= |job.order|
    ensures forall m :: m in job.Reports(n) <==> m in job.Reports(n - 1) || m in job.Part(n - 1)
  {
    hide *;
    ReportsAreParts(job, n);
  }

  lemma PartAllDone(job: Job, i: nat)
    requires i < |job.order|
    ensures forall m :: m in job.Part(i) && m.allDone ==> i == |job.order| - 1 && EndsWith(job, m)
  {
    hide Job.OutcomeAt, Job.FinalOutput, Job.RequestAt, Job.EnvAt, Job.FirstFailure, Caption;
    if job.IsStep(i) {
      LinesAreUniform(job.RunningMessage(i), job.OutcomeAt(i).lines);
    }
  }

  lemma LastOfReports(job: Job)
    requires job.order != [] && job.Stop() == |job.order| && job.Known(|job.order| - 1)
    ensures Closes(job.Reports(|job.order|))
  {
    hide *;
    var n := |job.order|;
    PartEnds(job, n - 1);
    ClosesAppend(job.Reports(n - 1), job.Part(n - 1));
    ReportsAreParts(job, n);
  }

  lemma ReportsAreParts(job: Job, n: nat)
    requires 0 < n <= |job.order|
    ensures job.Reports(n) == job.Reports(n - 1) + job.Part(n - 1)
  {
    hide Job.Part;
  }

  lemma ClosesAppend(a: seq<Progress>, b: seq<Progress>)
    requires b != [] && b[|b| - 1].allDone
    ensures Closes(a + b)
  {
  }

  /** The part of an executed node ends with its final message, which says all done at the last position only. */
  lemma PartEnds(job: Job, i: nat)
    requires i < |job.order| && job.Known(i) && i <= job.Stop()
    ensures var part := job.Part(i);
      part != [] && part[|part| - 1] == job.FinalMessage(i) && (job.FinalMessage(i).allDone <==> i == |job.order| - 1)
  {
    hide Job.OutcomeAt, Job.FinalOutput, Job.FirstFailure, Caption;
  }

  predicate Closes(trace: seq<Progress>) {
    trace != [] && trace[|trace| - 1].allDone
  }

  /** All all-done messages carry the verdict of the run. */
  lemma AllDoneMessagesAgree(job: Job)
    ensures forall m :: m in job.Transcript() && m.allDone ==> m.status == Verdict(job)
  {
    hide Job.Part;
    ReportsAllDone(job, |job.order|);
  }

  /** The last message says all done exactly when the order is empty, a node failed, or the last id of the
      order is a node; otherwise no message does. */
  lemma ClosesExactly(job: Job)
    ensures Closes(job.Transcript()) <==> job.order == [] || SomeNodeFails(job) || job.Known(|job.order| - 1)
    ensures !Closes(job.Transcript()) ==> forall m :: m in job.Transcript() ==> !m.allDone
  {
    hide Job.Part, Job.FinalMessage;
    ReportsAllDone(job, |job.order|);
    if job.order != [] && job.Stop() == |job.order| && job.Known(|job.order| - 1) {
      LastOfReports(job);
    }
  }

  /** The verdict is failed exactly when some node that the run reached failed. */
  lemma VerdictIsSomeFailure(job: Job)
    ensures Verdict(job) == Failed <==>
            exists i :: 0 <= i < |job.order| && job.Fails(i) && forall j :: 0 <= j < i ==> !job.Fails(j)
  {
    if i :| 0 <= i < |job.order| && job.Fails(i) && forall j :: 0 <= j < i ==> !job.Fails(j) {
      assert job.Stop() == i;
    }
    if Verdict(job) == Failed {
      assert job.Fails(job.Stop());
    }
  }

  // ---------------------------------------------------------------------------------------------
  // The processes and their variables

  /** A process runs exactly for each shell or download node up to the first failure, with the variables
      gathered before it. */
  lemma {:induction false} CallsBeforeExactly(job: Job, n: nat, c: Call)
    requires n <= |job.order|
    ensures c in job.CallsBefore(n) <==>
            c.index < n && job.RequestAt(c.index) == Some(c.request) && c.vars == job.EnvAt(c.index)
  {
    if n > 0 {
      CallsBeforeExactly(job, n - 1, c);
    }
  }

  lemma CallsExactly(job: Job, c: Call)
    ensures c in job.Calls() <==>
            && c.index < |job.order| && c.index <= job.Stop()
            && job.Known(c.index) && Asks(job.nodes[job.order[c.index]], c.request) && c.vars == job.EnvAt(c.index)
  {
    if c.index < |job.order| {
      RequestExactly(job, c.index, c.request);
    }
    CallsBeforeExactly(job, if job.Stop() == |job.order| then |job.order| else job.Stop() + 1, c);
  }

  /** The same over the given nodes: each process is asked what its own node says, a shell node's command or a download
      node's url and destination. */
  lemma ProcessesExactly(host: Host, nodes: seq<ScriptNode>, order: seq<NodeId>, c: Call)
    requires DistinctIds(nodes)
    ensures var job := Job(host, NodeMap(nodes), order);
      c in job.Calls() <==>
      && c.index < |order| && c.index <= job.Stop() && c.vars == job.EnvAt(c.index)
      && exists node :: node in nodes && node.id == order[c.index] && Asks(node, c.request)
  {
    var job := Job(host, NodeMap(nodes), order);
    CallsExactly(job, c);
    if c.index < |order| {
      NodeMapExactly(nodes, order[c.index]);
      hide Job.EnvAt, Job.Calls, Job.Stop, Asks, NodeMap;
      forall node | node in nodes && node.id == order[c.index] ensures job.nodes[order[c.index]] == node {
        NodeMapFinds(nodes, node);
      }
      if job.Known(c.index) {
        var k: nat :| LastWithId(nodes, k, order[c.index]);
        assert nodes[k] in nodes;
      }
    }
  }

  lemma {:induction false} CallsBeforeInOrder(job: Job, n: nat, a: nat, b: nat)
    requires n <= |job.order| && a < b < |job.CallsBefore(n)|
    ensures job.CallsBefore(n)[a].index < job.CallsBefore(n)[b].index < n
  {
    hide Job.RequestAt, Job.EnvAt;
    var init := job.CallsBefore(n - 1);
    if b < |init| {
      CallsBeforeInOrder(job, n - 1, a, b);
    } else {
      CallsBeforeExactly(job, n - 1, init[a]);
    }
  }

  /** Processes start in the order of their nodes, and each node starts at most one. */
  lemma CallsInOrder(job: Job, a: nat, b: nat)
    requires a < b < |job.Calls()|
    ensures job.Calls()[a].index < job.Calls()[b].index
  {
    CallsBeforeInOrder(job, if job.Stop() == |job.order| then |job.order| else job.Stop() + 1, a, b);
  }

  /** Binding b of the variable node at j assigns k. */
  predicate Writes(job: Job, j: nat, b: nat, k: string) {
    && j < |job.order| && job.Known(j) && job.nodes[job.order[j]].kind == "variable"
    && b < |job.nodes[job.order[j]].data.variables|
    && job.nodes[job.order[j]].data.variables[b].key == k
  }

  /** No binding after b of node j, and none of a node between j and i, assigns k. */
  ghost predicate LastWrite(job: Job, i: nat, j: nat, b: nat, k: string) {
    && j < i && Writes(job, j, b, k)
    && (forall b' :: b' > b ==> !Writes(job, j, b', k))
    && (forall j', b' :: j < j' < i ==> !Writes(job, j', b', k))
  }

  /** The value that binding b of node j assigns: its text expanded over everything assigned before it. */
  function Written(job: Job, j: nat, b: nat): string
    requires j < |job.order| && job.IsVariable(j) && b < |job.nodes[job.order[j]].data.variables|
  {
    var bindings := job.nodes[job.order[j]].data.variables;
    job.host.expand(bindings[b].value, BindAll(job.host, job.EnvAt(j), bindings[..b]))
  }

  /** The bindings of one node: untouched keys keep their value, an assigned key has its last assignment. */
  lemma {:induction false} BindAllLastWins(host: Host, vars: Env, bindings: seq<Variable>, k: string)
    returns (b: int)
    ensures -1 <= b < |bindings|
    ensures forall b' :: b < b' < |bindings| ==> bindings[b'].key != k
    ensures b >= 0 ==> bindings[b].key == k && k in BindAll(host, vars, bindings) &&
                       BindAll(host, vars, bindings)[k] ==
                       host.expand(bindings[b].value, BindAll(host, vars, bindings[..b]))
    ensures b < 0 ==> (k in BindAll(host, vars, bindings) <==> k in vars)
    ensures b < 0 && k in vars ==> BindAll(host, vars, bindings)[k] == vars[k]
  {
    if bindings == [] {
      b := -1;
    } else {
      var init, last := bindings[..|bindings| - 1], bindings[|bindings| - 1];
      if last.key == k {
        b := |bindings| - 1;
      } else {
        b := BindAllLastWins(host, vars, init, k);
        if b >= 0 {
          assert init[..b] == bindings[..b];
        }
      }
    }
  }

  /** The variables at i are exactly the keys that earlier variable nodes assign, each with its last assignment. */
  lemma {:induction false} LastWriterWins(job: Job, i: nat, k: string)
    requires i <= |job.order|
    ensures k in job.EnvAt(i) <==> exists j: nat, b: nat :: j < i && Writes(job, j, b, k)
    ensures forall j: nat, b: nat :: LastWrite(job, i, j, b, k) ==>
      k in job.EnvAt(i) && job.EnvAt(i)[k] == Written(job, j, b)
    ensures k in job.EnvAt(i) ==> exists j: nat, b: nat :: LastWrite(job, i, j, b, k)
  {
    if i > 0 {
      hide Job.OutcomeAt, BindAll;
      LastWriterWins(job, i - 1, k);
      var b := -1;
      if job.IsVariable(i - 1) {
        b := BindAllLastWins(job.host, job.EnvAt(i - 1), job.nodes[job.order[i - 1]].data.variables, k);
      }
      if b >= 0 {
        assert LastWrite(job, i, i - 1, b, k);
      } else {
        KeepsLastWrite(job, i, k);
        if k in job.EnvAt(i) {
          var j: nat, b': nat :| LastWrite(job, i - 1, j, b', k);
          assert LastWrite(job, i, j, b', k);
        }
      }
    }
  }

  lemma KeepsLastWrite(job: Job, i: nat, k: string)
    requires 0 < i <= |job.order|
    requires forall j, b :: j == i - 1 ==> !Writes(job, j, b, k)
    ensures forall j: nat, b: nat :: LastWrite(job, i, j, b, k) <==> LastWrite(job, i - 1, j, b, k)
  {
  }

  /** Every variable that an ancestor of a started node assigns is set when its process starts. */
  lemma AncestorVariablesAreSet(job: Job, edges: seq<Edge>, c: Call, a: nat, b: nat, k: string)
    requires SourcesFirst(edges, job.order) && NoRepeats(job.order)
    requires c in job.Calls()
    requires a < |job.order| && c.index < |job.order| && Ancestor(edges, job.order[a], job.order[c.index])
    requires Writes(job, a, b, k)
    ensures k in c.vars
  {
    CallsExactly(job, c);
    AncestorsComeFirst(edges, job.order, job.order[a], c.index);
    var j :| 0 <= j < c.index && job.order[j] == job.order[a];
    assert j == a;
    LastWriterWins(job, c.index, k);
  }
}
