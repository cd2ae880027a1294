/** The agent's ordering of a script graph: Kahn's algorithm over Go maps. */
module TopoSort {
  import opened Common
  import opened Script

  predicate DistinctIds(nodes: seq<ScriptNode>) {
    forall i, j :: 0 <= i < j < |nodes| ==> nodes[i].id != nodes[j].id
  }

  function NodeIds(nodes: seq<ScriptNode>): set<NodeId> {
    set i | 0 <= i < |nodes| :: nodes[i].id
  }

  /** Every id that topoSort keeps an in-degree for: the nodes and the edge targets. */
  function Vertices(nodes: seq<ScriptNode>, edges: seq<Edge>): set<NodeId> {
    NodeIds(nodes) + set i | 0 <= i < |edges| :: edges[i].target
  }

  /** Distinct ids and no dangling edge end. */
  predicate WellFormed(nodes: seq<ScriptNode>, edges: seq<Edge>) {
    && DistinctIds(nodes)
    && forall e :: e in edges ==> e.source in NodeIds(nodes) && e.target in NodeIds(nodes)
  }

  /** Every edge into an emitted id starts at an id emitted before it. */
  predicate SourcesFirst(edges: seq<Edge>, order: seq<NodeId>) {
    forall e, j :: e in edges && 0 <= j < |order| && order[j] == e.target ==> e.source in order[..j]
  }

  /** Some edge into v starts in s. */
  predicate HasSourceIn(edges: seq<Edge>, s: set<NodeId>, v: NodeId) {
    exists e :: e in edges && e.target == v && e.source in s
  }

  predicate Blocked(edges: seq<Edge>, order: seq<NodeId>, v: NodeId) {
    exists e :: e in edges && e.target == v && e.source !in order
  }

  /** Every omitted vertex waits for a source that is omitted too. */
  ghost predicate OmissionsBlocked(vertices: set<NodeId>, edges: seq<Edge>, order: seq<NodeId>) {
    forall v {:trigger Blocked(edges, order, v)} :: v in vertices && v !in order ==> Blocked(edges, order, v)
  }

  ghost predicate KahnOrder(nodes: seq<ScriptNode>, edges: seq<Edge>, order: seq<NodeId>) {
    && NoRepeats(order)
    && (forall v :: v in order ==> v in Vertices(nodes, edges))
    && SourcesFirst(edges, order)
    && OmissionsBlocked(Vertices(nodes, edges), edges, order)
  }

  // ---------------------------------------------------------------------------------------------
  // Counting edges

  /** The edges into v whose source is not in done: the in-degree v still waits for. */
  function OpenEdges(edges: seq<Edge>, v: NodeId, done: set<NodeId>): nat {
    if edges == [] then 0
    else
      var last := edges[|edges| - 1];
      OpenEdges(edges[..|edges| - 1], v, done) + if last.target == v && last.source !in done then 1 else 0
  }

  /** The targets of the edges out of s, in edge order: the list next[s]. */
  function Targets(edges: seq<Edge>, s: NodeId): seq<NodeId> {
    if edges == [] then []
    else
      var last := edges[|edges| - 1];
      Targets(edges[..|edges| - 1], s) + if last.source == s then [last.target] else []
  }

  lemma TargetsAreTargets(edges: seq<Edge>, s: NodeId)
    ensures forall t :: t in Targets(edges, s) ==> Edge(s, t) in edges
  {
  }

  /** Finishing cur closes exactly the edges that next[cur] lists. */
  lemma {:induction false} ClosingASource(edges: seq<Edge>, v: NodeId, done: set<NodeId>, cur: NodeId)
    requires cur !in done
    ensures OpenEdges(edges, v, done) == OpenEdges(edges, v, done + {cur}) + multiset(Targets(edges, cur))[v]
  {
    if edges != [] {
      ClosingASource(edges[..|edges| - 1], v, done, cur);
    }
  }

  lemma {:induction false} OpenEdgesZero(edges: seq<Edge>, v: NodeId, done: set<NodeId>)
    ensures OpenEdges(edges, v, done) == 0 <==> forall e :: e in edges && e.target == v ==> e.source in done
  {
    if edges != [] {
      var init, last := edges[..|edges| - 1], edges[|edges| - 1];
      OpenEdgesZero(init, v, done);
      assert edges == init + [last];
    }
  }

  lemma {:induction false} NoEdgeInto(edges: seq<Edge>, v: NodeId, done: set<NodeId>)
    requires forall e :: e in edges ==> e.target != v
    ensures OpenEdges(edges, v, done) == 0
  {
    OpenEdgesZero(edges, v, done);
  }

  // ---------------------------------------------------------------------------------------------
  // The algorithm

  /** The ids whose in-degree is still positive; it shrinks whenever an id is queued. */
  function Waiting(inDegree: map<NodeId, int>): set<NodeId> {
    set v | v in inDegree && inDegree[v] > 0
  }

  function Lookup(next: map<NodeId, seq<NodeId>>, s: NodeId): seq<NodeId> {
    if s in next then next[s] else []
  }

  method ZeroDegrees(nodes: seq<ScriptNode>) returns (inDegree: map<NodeId, int>)
    ensures inDegree.Keys == NodeIds(nodes)
    ensures forall v :: v in inDegree ==> inDegree[v] == 0
  {
    inDegree := map[];
    for i := 0 to |nodes|
      invariant inDegree.Keys == NodeIds(nodes[..i])
      invariant forall v :: v in inDegree ==> inDegree[v] == 0
    {
      NodeIdsSnoc(nodes, i);
      inDegree := inDegree[nodes[i].id := 0];
    }
    assert nodes[..|nodes|] == nodes;
  }

  lemma NodeIdsSnoc(nodes: seq<ScriptNode>, i: nat)
    requires i < |nodes|
    ensures NodeIds(nodes[..i + 1]) == NodeIds(nodes[..i]) + {nodes[i].id}
  {
    forall v | v in NodeIds(nodes[..i]) + {nodes[i].id} ensures v in NodeIds(nodes[..i + 1]) {
      var k :| 0 <= k <= i && nodes[k].id == v;
      assert nodes[..i + 1][k].id == v;
    }
  }

  /** What the maps hold after the first edges: one in-degree per vertex, one target list per source. */
  ghost predicate DegreesCounted(nodes: seq<ScriptNode>, edges: seq<Edge>, inDegree: map<NodeId, int>) {
    && inDegree.Keys == Vertices(nodes, edges)
    && forall v :: v in inDegree ==> inDegree[v] == OpenEdges(edges, v, {})
  }

  ghost predicate TargetsListed(edges: seq<Edge>, next: map<NodeId, seq<NodeId>>) {
    forall s :: Lookup(next, s) == Targets(edges, s)
  }

  lemma DegreesSnoc(nodes: seq<ScriptNode>, edges: seq<Edge>, e: Edge, inDegree: map<NodeId, int>)
    requires DegreesCounted(nodes, edges, inDegree)
    ensures DegreesCounted(nodes, edges + [e], Incremented(inDegree, e.target))
  {
    VerticesSnoc(nodes, edges, e);
    if e.target !in inDegree {
      forall f | f in edges ensures f.target != e.target {
        var k :| 0 <= k < |edges| && edges[k] == f;
        assert edges[k].target in Vertices(nodes, edges);
      }
      NoEdgeInto(edges, e.target, {});
    }
    var inDegree' := Incremented(inDegree, e.target);
    forall v | v in inDegree' ensures inDegree'[v] == OpenEdges(edges + [e], v, {}) {
      OpenEdgesSnoc(edges, e, v);
    }
  }

  lemma TargetsListedSnoc(edges: seq<Edge>, e: Edge, next: map<NodeId, seq<NodeId>>)
    requires TargetsListed(edges, next)
    ensures TargetsListed(edges + [e], Appended(next, e))
  {
    forall s ensures Lookup(Appended(next, e), s) == Targets(edges + [e], s) {
      TargetsSnoc(edges, e, s);
    }
  }

  lemma OpenEdgesSnoc(edges: seq<Edge>, e: Edge, v: NodeId)
    ensures OpenEdges(edges + [e], v, {}) == OpenEdges(edges, v, {}) + if v == e.target then 1 else 0
  {
    assert (edges + [e])[..|edges|] == edges;
  }

  lemma TargetsSnoc(edges: seq<Edge>, e: Edge, s: NodeId)
    ensures Targets(edges + [e], s) == Targets(edges, s) + if s == e.source then [e.target] else []
  {
    assert (edges + [e])[..|edges|] == edges;
  }

  // Go reads a missing map entry as 0 or as the empty slice.
  function Incremented(inDegree: map<NodeId, int>, v: NodeId): map<NodeId, int> {
    inDegree[v := (if v in inDegree then inDegree[v] else 0) + 1]
  }

  function Appended(next: map<NodeId, seq<NodeId>>, e: Edge): map<NodeId, seq<NodeId>> {
    next[e.source := Lookup(next, e.source) + [e.target]]
  }

  method CountEdges(nodes: seq<ScriptNode>, edges: seq<Edge>)
    returns (inDegree: map<NodeId, int>, next: map<NodeId, seq<NodeId>>)
    ensures DegreesCounted(nodes, edges, inDegree) && TargetsListed(edges, next)
  {
    inDegree := ZeroDegrees(nodes);
    next := map[];
    for i := 0 to |edges|
      invariant DegreesCounted(nodes, edges[..i], inDegree) && TargetsListed(edges[..i], next)
    {
      assert edges[..i + 1] == edges[..i] + [edges[i]];
      DegreesSnoc(nodes, edges[..i], edges[i], inDegree);
      TargetsListedSnoc(edges[..i], edges[i], next);
      inDegree := Incremented(inDegree, edges[i].target);
      next := Appended(next, edges[i]);
    }
    assert edges[..|edges|] == edges;
  }

  lemma VerticesSnoc(nodes: seq<ScriptNode>, edges: seq<Edge>, e: Edge)
    ensures Vertices(nodes, edges + [e]) == Vertices(nodes, edges) + {e.target}
  {
    var after := edges + [e];
    forall v | v in Vertices(nodes, edges) + {e.target} ensures v in Vertices(nodes, after) {
      if v == e.target {
        assert after[|edges|].target == v;
      } else if v !in NodeIds(nodes) {
        var k :| 0 <= k < |edges| && edges[k].target == v;
        assert after[k].target == v;
      }
    }
  }

  /** The inner loop: one decrement per listed target, queueing an id exactly when it reaches zero. */
  method Relax(targets: seq<NodeId>, inDegree: map<NodeId, int>)
    returns (inDegree': map<NodeId, int>, added: seq<NodeId>)
    requires forall t :: t in targets ==> t in inDegree
    ensures inDegree'.Keys == inDegree.Keys
    ensures forall v :: v in inDegree ==> inDegree'[v] == inDegree[v] - multiset(targets)[v]
    ensures NoRepeats(added)
    ensures forall v :: v in added <==> v in inDegree && inDegree[v] > 0 >= inDegree'[v]
    ensures |Waiting(inDegree')| + |added| == |Waiting(inDegree)|
  {
    hide Waiting;
    inDegree', added := inDegree, [];
    for k := 0 to |targets|
      invariant inDegree'.Keys == inDegree.Keys
      invariant forall v :: v in inDegree ==> inDegree'[v] == inDegree[v] - multiset(targets[..k])[v]
      invariant NoRepeats(added)
      invariant forall v :: v in added <==> v in inDegree && inDegree[v] > 0 >= inDegree'[v]
      invariant |Waiting(inDegree')| + |added| == |Waiting(inDegree)|
    {
      var t := targets[k];
      PrefixCount(targets, k);
      WaitingShrinks(inDegree', t);
      inDegree' := inDegree'[t := inDegree'[t] - 1];
      if inDegree'[t] == 0 {
        added := added + [t];
      }
    }
    assert targets[..|targets|] == targets;
  }

  lemma WaitingShrinks(inDegree: map<NodeId, int>, t: NodeId)
    requires t in inDegree
    ensures |Waiting(inDegree[t := inDegree[t] - 1])| == |Waiting(inDegree)| - if inDegree[t] == 1 then 1 else 0
  {
    var before, after := Waiting(inDegree), Waiting(inDegree[t := inDegree[t] - 1]);
    if inDegree[t] == 1 {
      assert after == before - {t};
    } else {
      assert after == before;
    }
  }

  lemma PrefixCount(s: seq<NodeId>, k: nat)
    requires k < |s|
    ensures multiset(s[..k + 1]) == multiset(s[..k]) + multiset{s[k]}
  {
    assert s[..k + 1] == s[..k] + [s[k]];
  }

  /** The ids without incoming edges, in node order. */
  method InitialQueue(nodes: seq<ScriptNode>, inDegree: map<NodeId, int>) returns (queue: seq<NodeId>)
    requires forall n :: n in nodes ==> n.id in inDegree
    ensures forall v :: v in queue <==> v in NodeIds(nodes) && inDegree[v] == 0
    ensures DistinctIds(nodes) ==> NoRepeats(queue)
  {
    queue := [];
    for i := 0 to |nodes|
      invariant forall v :: v in queue <==> exists k :: 0 <= k < i && nodes[k].id == v && inDegree[v] == 0
      invariant DistinctIds(nodes) ==> NoRepeats(queue)
    {
      if inDegree[nodes[i].id] == 0 {
        queue := queue + [nodes[i].id];
      }
    }
  }

  function Elements(s: seq<NodeId>): set<NodeId> {
    set v | v in s
  }

  ghost predicate ZerosAre(inDegree: map<NodeId, int>, seen: seq<NodeId>) {
    forall v :: v in seen <==> v in inDegree && inDegree[v] == 0
  }

  /** The in-degrees count the open edges, and the ids at zero are exactly those emitted or queued. */
  ghost predicate KahnInvariant(nodes: seq<ScriptNode>, edges: seq<Edge>, inDegree: map<NodeId, int>,
                                order: seq<NodeId>, queue: seq<NodeId>)
  {
    && inDegree.Keys == Vertices(nodes, edges)
    && NoRepeats(order + queue)
    && (forall v :: v in inDegree ==> inDegree[v] == OpenEdges(edges, v, Elements(order)))
    && ZerosAre(inDegree, order + queue)
    && SourcesFirst(edges, order)
  }

  lemma EmitKeepsCounts(edges: seq<Edge>, inDegree: map<NodeId, int>, order: seq<NodeId>, cur: NodeId,
                        inDegree': map<NodeId, int>)
    requires cur !in order
    requires inDegree'.Keys == inDegree.Keys
    requires forall v :: v in inDegree ==> inDegree[v] == OpenEdges(edges, v, Elements(order))
    requires forall v :: v in inDegree ==> inDegree'[v] == inDegree[v] - multiset(Targets(edges, cur))[v]
    ensures forall v :: v in inDegree' ==> inDegree'[v] == OpenEdges(edges, v, Elements(order + [cur]))
  {
    assert Elements(order + [cur]) == Elements(order) + {cur};
    forall v | v in inDegree' ensures inDegree'[v] == OpenEdges(edges, v, Elements(order) + {cur}) {
      ClosingASource(edges, v, Elements(order), cur);
    }
  }

  lemma EmitKeepsSourcesFirst(edges: seq<Edge>, order: seq<NodeId>, cur: NodeId)
    requires SourcesFirst(edges, order) && OpenEdges(edges, cur, Elements(order)) == 0
    ensures SourcesFirst(edges, order + [cur])
  {
    OpenEdgesZero(edges, cur, Elements(order));
    var order' := order + [cur];
    forall e, j | e in edges && 0 <= j < |order'| && order'[j] == e.target ensures e.source in order'[..j] {
      assert order'[..j] == order[..j];
    }
  }

  lemma QueueingKeepsZeros(seen: seq<NodeId>, added: seq<NodeId>,
                           inDegree: map<NodeId, int>, inDegree': map<NodeId, int>)
    requires ZerosAre(inDegree, seen) && NoRepeats(seen) && NoRepeats(added)
    requires inDegree'.Keys == inDegree.Keys
    requires forall v :: v in inDegree ==> 0 <= inDegree'[v] <= inDegree[v]
    requires forall v :: v in added <==> v in inDegree && inDegree[v] > 0 >= inDegree'[v]
    ensures ZerosAre(inDegree', seen + added) && NoRepeats(seen + added)
  {
    forall i, j | 0 <= i < j < |seen + added| ensures (seen + added)[i] != (seen + added)[j] {
      if i < |seen| <= j {
        assert seen[i] in seen && added[j - |seen|] in added;
      }
    }
  }

  lemma EmitKeepsInvariant(nodes: seq<ScriptNode>, edges: seq<Edge>, inDegree: map<NodeId, int>,
                           order: seq<NodeId>, cur: NodeId, rest: seq<NodeId>,
                           inDegree': map<NodeId, int>, added: seq<NodeId>)
    requires KahnInvariant(nodes, edges, inDegree, order, [cur] + rest)
    requires inDegree'.Keys == inDegree.Keys
    requires forall v :: v in inDegree ==> inDegree'[v] == inDegree[v] - multiset(Targets(edges, cur))[v]
    requires NoRepeats(added)
    requires forall v :: v in added <==> v in inDegree && inDegree[v] > 0 >= inDegree'[v]
    ensures KahnInvariant(nodes, edges, inDegree', order + [cur], rest + added)
  {
    var seen := order + ([cur] + rest);
    assert cur in seen;
    NotInFront(order, cur, rest);
    EmitKeepsCounts(edges, inDegree, order, cur, inDegree');
    EmitKeepsSourcesFirst(edges, order, cur);
    assert ZerosAre(inDegree', seen + added) && NoRepeats(seen + added) by {
      assert forall v :: v in inDegree' ==> 0 <= inDegree'[v] <= inDegree[v];
      QueueingKeepsZeros(seen, added, inDegree, inDegree');
    }
    Regroup(order, [cur], rest, added);
  }

  lemma Regroup<T>(a: seq<T>, b: seq<T>, c: seq<T>, d: seq<T>)
    ensures (a + b) + (c + d) == (a + (b + c)) + d
  {
  }

  lemma NotInFront(order: seq<NodeId>, cur: NodeId, rest: seq<NodeId>)
    requires NoRepeats(order + ([cur] + rest))
    ensures cur !in order
  {
    var seen := order + ([cur] + rest);
    assert seen[|order|] == cur;
    assert forall i :: 0 <= i < |order| ==> seen[i] == order[i];
  }

  method Sort(nodes: seq<ScriptNode>, edges: seq<Edge>) returns (order: seq<NodeId>)
    ensures forall v :: v in order ==> v in Vertices(nodes, edges)
    ensures DistinctIds(nodes) ==> KahnOrder(nodes, edges, order)
  {
    hide KahnInvariant, KahnOrder, Waiting;
    var inDegree, next := CountEdges(nodes, edges);
    assert forall n :: n in nodes ==> n.id in NodeIds(nodes);
    var queue := InitialQueue(nodes, inDegree);
    order := [];
    StartInvariant(nodes, edges, inDegree, queue);
    while queue != []
      invariant inDegree.Keys == Vertices(nodes, edges)
      invariant forall v :: v in order || v in queue ==> v in inDegree
      invariant DistinctIds(nodes) ==> KahnInvariant(nodes, edges, inDegree, order, queue)
      decreases |Waiting(inDegree)| + |queue|
    {
      var cur, rest := queue[0], queue[1..];
      TargetsAreVertices(nodes, edges, cur);
      var inDegree', added := Relax(Lookup(next, cur), inDegree);
      if DistinctIds(nodes) {
        assert queue == [cur] + rest;
        EmitKeepsInvariant(nodes, edges, inDegree, order, cur, rest, inDegree', added);
      }
      order := order + [cur];
      inDegree, queue := inDegree', rest + added;
    }
    if DistinctIds(nodes) {
      assert queue == [];
      EmptyQueueMeansDone(nodes, edges, inDegree, order);
    }
  }

  lemma EmptyQueueMeansDone(nodes: seq<ScriptNode>, edges: seq<Edge>, inDegree: map<NodeId, int>, order: seq<NodeId>)
    requires KahnInvariant(nodes, edges, inDegree, order, [])
    ensures KahnOrder(nodes, edges, order)
  {
    assert order + [] == order;
    forall v | v in Vertices(nodes, edges) && v !in order ensures Blocked(edges, order, v)
    {
      OpenEdgesZero(edges, v, Elements(order));
    }
  }

  lemma TargetsAreVertices(nodes: seq<ScriptNode>, edges: seq<Edge>, s: NodeId)
    ensures forall t :: t in Targets(edges, s) ==> t in Vertices(nodes, edges)
  {
    TargetsAreTargets(edges, s);
    forall t | t in Targets(edges, s) ensures t in Vertices(nodes, edges) {
      var k :| 0 <= k < |edges| && edges[k] == Edge(s, t);
      assert edges[k].target == t;
    }
  }

  lemma StartInvariant(nodes: seq<ScriptNode>, edges: seq<Edge>, inDegree: map<NodeId, int>, queue: seq<NodeId>)
    requires inDegree.Keys == Vertices(nodes, edges)
    requires forall v :: v in inDegree ==> inDegree[v] == OpenEdges(edges, v, {})
    requires forall v :: v in queue <==> v in NodeIds(nodes) && inDegree[v] == 0
    ensures NoRepeats(queue) ==> KahnInvariant(nodes, edges, inDegree, [], queue)
  {
    assert [] + queue == queue;
    assert Elements([]) == {};
    forall v | v in inDegree && inDegree[v] == 0 ensures v in queue {
      OpenEdgesZero(edges, v, {});
      assert forall k :: 0 <= k < |edges| ==> edges[k] in edges;
    }
  }
}
