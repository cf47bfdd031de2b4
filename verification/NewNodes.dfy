/**
 A node that joins the graph without edges.
 */
module NewNodes {
  import opened Basics
  import opened Reachability
  import opened BlockGraph
  import opened Transactions

  predicate NoEdges(node: Node) {
    node.children == {} && node.parents == {} && node.backing.None? && node.file.None?
  }

  function WithNode(g: Graph, n: NodeId, node: Node, from: Option<NodeId>): Graph {
    g.(nodes := g.nodes[n := node], inherits := if from.Some? then g.inherits[n := from.value] else g.inherits)
  }

  lemma NodeAddedWf(g: Graph, n: NodeId, node: Node, from: Option<NodeId>)
    requires WellFormed(g) && n !in g.nodes && NoEdges(node)
    ensures WellFormed(WithNode(g, n, node, from))
  {
    var g' := WithNode(g, n, node, from);
    forall m | m in g'.nodes ensures SlotsWf(g', m) {
      assert m != n ==> SlotsWf(g, m);
    }
    forall e | e in g'.edges ensures EdgeWf(g', e) {
      assert EdgeWf(g, e);
    }
  }

  lemma NodeAddedAcyclic(g: Graph, n: NodeId, node: Node, from: Option<NodeId>)
    requires AcyclicGraph(g) && n !in g.nodes && NoEdges(node)
    ensures AcyclicGraph(WithNode(g, n, node, from))
  {
    var g' := WithNode(g, n, node, from);
    assert forall m | m in g.nodes :: ChildNodes(g', m) == ChildNodes(g, m);
    assert ChildNodes(g', n) == {};
    FewerArcsKeepAcyclic(ArcsOf(g), ArcsOf(g'));
  }

  lemma NodeAddedLineage(g: Graph, n: NodeId, node: Node, from: Option<NodeId>)
    requires InheritsWf(g) && n !in g.nodes && (from.Some? ==> from.value in g.nodes)
    ensures InheritsWf(WithNode(g, n, node, from))
  {
    var a, a' := Lineage(g.inherits), Lineage(WithNode(g, n, node, from).inherits);
    if from.Some? {
      assert !Reach(a, from.value, n) by {
        if Reach(a, from.value, n) {
          ClosedSetReach(a, g.nodes.Keys, from.value, n);
        }
      }
      AddArcKeepsAcyclic(a, a', n, from.value);
    }
  }

  lemma NodeAddedCounted(t: Txn, n: NodeId, node: Node, from: Option<NodeId>, t': Txn)
    requires Counted(t.g, t.refcnt, t.log, t.unrefs, t.outside) && Alive(t.g, t.log, t.unrefs, t.outside)
    requires t.log == [] && n !in t.g.nodes && n !in t.unrefs && n !in t.outside && NoEdges(node)
    requires t' == t.(g := WithNode(t.g, n, node, from), refcnt := t.refcnt[n := 1], outside := t.outside + multiset{n})
    ensures Counted(t'.g, t'.refcnt, t'.log, t'.unrefs, t'.outside) && Alive(t'.g, t'.log, t'.unrefs, t'.outside)
  {
    forall m | m in t'.g.nodes
      ensures Owed(t'.g, t'.log, t'.unrefs, t'.outside, m) == if m == n then 1
              else Owed(t.g, t.log, t.unrefs, t.outside, m)
    {
    }
  }

  /** A new node keeps the invariant of the block layer. */
  lemma NodeAdded(t: Txn, n: NodeId, node: Node, from: Option<NodeId>, t': Txn)
    requires Open(t) && t.log == [] && n !in t.g.nodes && n !in t.unrefs && n !in t.outside
    requires NoEdges(node) && (from.Some? ==> from.value in t.g.nodes)
    requires t' == t.(g := WithNode(t.g, n, node, from), refcnt := t.refcnt[n := 1], outside := t.outside + multiset{n})
    ensures Open(t')
  {
    NodeAddedSound(t, n, node, from, t');
    assert RollsBackTo(t', t'.g);
  }

  lemma NodeAddedSound(t: Txn, n: NodeId, node: Node, from: Option<NodeId>, t': Txn)
    requires Sound(t) && t.log == [] && n !in t.g.nodes && n !in t.unrefs && n !in t.outside
    requires NoEdges(node) && (from.Some? ==> from.value in t.g.nodes)
    requires t' == t.(g := WithNode(t.g, n, node, from), refcnt := t.refcnt[n := 1], outside := t.outside + multiset{n})
    ensures Sound(t')
  {
    NodeAddedWf(t.g, n, node, from);
    NodeAddedAcyclic(t.g, n, node, from);
    NodeAddedLineage(t.g, n, node, from);
    NodeAddedCounted(t, n, node, from, t');
  }
}
