/** What a Kahn order says about the graph: it omits nothing exactly when the graph has no cycle. */
module Cycles {
  import opened Common
  import opened Script
  import opened TopoSort

  /** Consecutive ids of w are joined by edges. */
  predicate IsWalk(edges: seq<Edge>, w: seq<NodeId>) {
    w != [] && forall i :: 0 <= i < |w| - 1 ==> Edge(w[i], w[i + 1]) in edges
  }

  predicate IsCycle(edges: seq<Edge>, w: seq<NodeId>) {
    |w| >= 2 && IsWalk(edges, w) && w[0] == w[|w| - 1]
  }

  ghost predicate Acyclic(edges: seq<Edge>) {
    !exists w :: IsCycle(edges, w)
  }

  /** a is an ancestor of b: some walk of at least one edge leads from a to b. */
  ghost predicate Ancestor(edges: seq<Edge>, a: NodeId, b: NodeId) {
    exists w :: |w| >= 2 && IsWalk(edges, w) && w[0] == a && w[|w| - 1] == b
  }

  /** A walk that ends inside the order stays inside it and climbs: each id is emitted before the next. */
  lemma {:induction false} WalkClimbs(edges: seq<Edge>, order: seq<NodeId>, w: seq<NodeId>, j: nat)
    returns (i: nat)
    requires SourcesFirst(edges, order) && IsWalk(edges, w)
    requires j < |order| && order[j] == w[|w| - 1]
    ensures i <= j && order[i] == w[0]
    ensures |w| >= 2 ==> i < j
    decreases |w|
  {
    if |w| == 1 {
      i := j;
    } else {
      var last := |w| - 1;
      assert Edge(w[last - 1], w[last]) in edges;
      assert w[last - 1] in order[..j];
      var k :| 0 <= k < j && order[k] == w[last - 1];
      i := WalkClimbs(edges, order, w[..last], k);
    }
  }

  lemma AncestorsComeFirst(edges: seq<Edge>, order: seq<NodeId>, a: NodeId, j: nat)
    requires SourcesFirst(edges, order) && j < |order| && Ancestor(edges, a, order[j])
    ensures a in order[..j]
  {
    var w :| |w| >= 2 && IsWalk(edges, w) && w[0] == a && w[|w| - 1] == order[j];
    var i := WalkClimbs(edges, order, w, j);
    assert order[..j][i] == a;
  }

  /** No id on a cycle is ever emitted. */
  lemma CyclesAreOmitted(edges: seq<Edge>, order: seq<NodeId>, w: seq<NodeId>)
    requires SourcesFirst(edges, order) && NoRepeats(order) && IsCycle(edges, w)
    ensures w[0] !in order
  {
    if w[0] in order {
      var j :| 0 <= j < |order| && order[j] == w[0];
      var i := WalkClimbs(edges, order, w, j);
      assert false;
    }
  }

  /** A set whose members all have a predecessor in it contains walks of every length. */
  lemma {:induction false} WalkBack(edges: seq<Edge>, s: set<NodeId>, v: NodeId, n: nat)
    returns (w: seq<NodeId>)
    requires v in s
    requires forall x {:trigger HasSourceIn(edges, s, x)} :: x in s ==> HasSourceIn(edges, s, x)
    ensures |w| == n + 1 && IsWalk(edges, w) && w[n] == v
    ensures forall x :: x in w ==> x in s
    decreases n
  {
    if n == 0 {
      w := [v];
    } else {
      assert HasSourceIn(edges, s, v);
      var e :| e in edges && e.target == v && e.source in s;
      var front := WalkBack(edges, s, e.source, n - 1);
      w := front + [v];
      assert Edge(front[n - 1], v) == e;
    }
  }

  /** A sequence longer than the set it draws from repeats an element. */
  lemma {:induction false} Pigeonhole(s: set<NodeId>, w: seq<NodeId>) returns (i: nat, j: nat)
    requires |w| > |s| && forall x :: x in w ==> x in s
    ensures i < j < |w| && w[i] == w[j]
  {
    assert w[0] in s;
    if w[0] in w[1..] {
      i := 0;
      j :| 1 <= j < |w| && w[j] == w[0];
    } else {
      var i', j' := Pigeonhole(s - {w[0]}, w[1..]);
      i, j := i' + 1, j' + 1;
    }
  }

  lemma OmissionsHideACycle(edges: seq<Edge>, s: set<NodeId>)
    requires s != {}
    requires forall x {:trigger HasSourceIn(edges, s, x)} :: x in s ==> HasSourceIn(edges, s, x)
    ensures !Acyclic(edges)
  {
    var v :| v in s;
    var w := WalkBack(edges, s, v, |s|);
    var i, j := Pigeonhole(s, w);
    var c := w[i..j + 1];
    forall k | 0 <= k < |c| - 1 ensures Edge(c[k], c[k + 1]) in edges {
      assert c[k] == w[i + k] && c[k + 1] == w[i + k + 1];
    }
    assert IsCycle(edges, c);
  }

  /** The order emits every node exactly when the graph is acyclic, and then it is a permutation of the node ids. */
  lemma CompleteIffAcyclic(nodes: seq<ScriptNode>, edges: seq<Edge>, order: seq<NodeId>)
    requires WellFormed(nodes, edges) && KahnOrder(nodes, edges, order)
    ensures (forall n :: n in nodes ==> n.id in order) <==> Acyclic(edges)
    ensures Acyclic(edges) ==> multiset(order) == multiset(Ids(nodes))
  {
    EdgesStayInside(nodes, edges);
    var omitted := Vertices(nodes, edges) - Elements(order);
    if omitted != {} {
      forall x | x in omitted ensures HasSourceIn(edges, omitted, x) {
        assert Blocked(edges, order, x);
      }
      OmissionsHideACycle(edges, omitted);
    }
    if !Acyclic(edges) {
      var w :| IsCycle(edges, w);
      assert Edge(w[0], w[1]) in edges;
      CyclesAreOmitted(edges, order, w);
    } else {
      assert omitted == {};
      forall v ensures v in order <==> v in Ids(nodes) {
        assert v in NodeIds(nodes) && v !in order ==> v in omitted;
      }
      SameElementsSameMultiset(order, Ids(nodes));
    }
  }

  function Ids(nodes: seq<ScriptNode>): seq<NodeId> {
    seq(|nodes|, i requires 0 <= i < |nodes| => nodes[i].id)
  }

  lemma EdgesStayInside(nodes: seq<ScriptNode>, edges: seq<Edge>)
    requires WellFormed(nodes, edges)
    ensures Vertices(nodes, edges) == NodeIds(nodes)
    ensures forall v :: v in NodeIds(nodes) <==> v in Ids(nodes)
    ensures forall v :: v in NodeIds(nodes) <==> exists n :: n in nodes && n.id == v
  {
    forall v | v in Vertices(nodes, edges) ensures v in NodeIds(nodes) {
      assert forall k :: 0 <= k < |edges| ==> edges[k] in edges;
    }
    forall v | v in NodeIds(nodes) ensures v in Ids(nodes) {
      var k :| 0 <= k < |nodes| && nodes[k].id == v;
      assert Ids(nodes)[k] == v;
    }
  }

  lemma CountsOne(s: seq<NodeId>, v: NodeId)
    requires NoRepeats(s)
    ensures multiset(s)[v] == if v in s then 1 else 0
  {
    if s != [] {
      assert s == s[..|s| - 1] + [s[|s| - 1]];
      CountsOne(s[..|s| - 1], v);
    }
  }

  lemma SameElementsSameMultiset(s: seq<NodeId>, t: seq<NodeId>)
    requires NoRepeats(s) && NoRepeats(t) && forall v :: v in s <==> v in t
    ensures multiset(s) == multiset(t)
  {
    forall v ensures multiset(s)[v] == multiset(t)[v] {
      CountsOne(s, v);
      CountsOne(t, v);
    }
  }
}
