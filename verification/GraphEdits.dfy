/**
 The primitive edits of the block graph and the records that undo them.

 Every edit that belongs to a transaction adds one record; aborting the transaction undoes the
 records last-in first-out.
 */
module GraphEdits {
  import opened Basics
  import opened Reachability
  import opened BlockGraph
  import opened Permissions

  // ---------------------------------------------------------------- bdrv_replace_child_noperm

  function RedirectNode(g: Graph, e: EdgeId, to: Option<NodeId>, n: NodeId): Node
    requires e in g.edges && n in g.nodes
  {
    var node, owned := g.nodes[n], g.edges[e].owner == Bds(n);
    var slot := if owned then SlotOf(node.drv, g.edges[e].role) else NoSlot;
    var entry := if to.Some? then Some(e) else None;
    node.(parents := if to == Some(n) then node.parents + {e} else node.parents - {e},
          children := if !owned then node.children else if to.Some? then node.children + {e} else node.children - {e},
          backing := if slot.BackingSlot? then entry else node.backing,
          file := if slot.FileSlot? then entry else node.file)
  }

  /** Makes the edge point to `to`, keeping the lists of both nodes and the slots of its owner. */
  function Redirect(g: Graph, e: EdgeId, to: Option<NodeId>): Graph
    requires e in g.edges
  {
    g.(nodes := map n | n in g.nodes :: RedirectNode(g, e, to, n), edges := g.edges[e := g.edges[e].(bs := to)])
  }

  /** What bdrv_child_cb_attach asserts: the role fits, and the slot of the edge is free, or its own. */
  predicate SlotFree(g: Graph, e: EdgeId)
    requires e in g.edges
  {
    g.edges[e].owner.Bds? ==>
      var p := g.edges[e].owner.node;
      && p in g.nodes && Fits(g.nodes[p].drv, g.edges[e].role)
      && (SlotOf(g.nodes[p].drv, g.edges[e].role).BackingSlot? ==> g.nodes[p].backing in {None, Some(e)})
      && (SlotOf(g.nodes[p].drv, g.edges[e].role).FileSlot? ==> g.nodes[p].file in {None, Some(e)})
      && (IsFiltered(g.nodes[p].drv, g.edges[e].role) ==>
            g.nodes[p].backing in {None, Some(e)} && g.nodes[p].file in {None, Some(e)})
  }

  lemma AttachedHasSlot(g: Graph, e: EdgeId)
    requires WellFormed(g) && e in g.edges && g.edges[e].bs.Some?
    ensures SlotFree(g, e)
  {
    assert EdgeWf(g, e);
    if g.edges[e].owner.Bds? {
      assert SlotsWf(g, g.edges[e].owner.node);
    }
  }

  lemma RedirectLists(g: Graph, e: EdgeId, to: Option<NodeId>)
    requires WellFormed(g) && e in g.edges && SlotFree(g, e)
    requires to.Some? ==> to.value in g.nodes
    ensures ListsWf(Redirect(g, e, to))
    ensures forall x | x in g.edges :: EdgeWf(Redirect(g, e, to), x)
  {
    var g' := Redirect(g, e, to);
    forall x | x in g.edges ensures EdgeWf(g', x) {
      assert EdgeWf(g, x);
    }
  }

  lemma RedirectSlots(g: Graph, e: EdgeId, to: Option<NodeId>, n: NodeId)
    requires WellFormed(g) && e in g.edges && SlotFree(g, e) && n in g.nodes
    requires ListsWf(Redirect(g, e, to))
    ensures SlotsWf(Redirect(g, e, to), n)
  {
    assert SlotsWf(g, n);
    assert EdgeWf(g, e);
  }

  lemma RedirectWf(g: Graph, e: EdgeId, to: Option<NodeId>)
    requires WellFormed(g) && e in g.edges && SlotFree(g, e)
    requires to.Some? ==> to.value in g.nodes
    ensures WellFormed(Redirect(g, e, to))
  {
    var g' := Redirect(g, e, to);
    RedirectLists(g, e, to);
    forall n | n in g'.nodes ensures SlotsWf(g', n) {
      RedirectSlots(g, e, to, n);
    }
  }

  lemma RedirectBackNode(g: Graph, e: EdgeId, to: Option<NodeId>, n: NodeId)
    requires WellFormed(g) && e in g.edges && SlotFree(g, e) && n in g.nodes
    ensures RedirectNode(Redirect(g, e, to), e, g.edges[e].bs, n) == g.nodes[n]
  {
    assert EdgeWf(g, e);
    assert SlotsWf(g, n);
  }

  /** Redirecting an edge back restores the whole graph. */
  lemma RedirectBack(g: Graph, e: EdgeId, to: Option<NodeId>)
    requires WellFormed(g) && e in g.edges && SlotFree(g, e)
    ensures Redirect(Redirect(g, e, to), e, g.edges[e].bs) == g
  {
    forall n | n in g.nodes ensures RedirectNode(Redirect(g, e, to), e, g.edges[e].bs, n) == g.nodes[n] {
      RedirectBackNode(g, e, to, n);
    }
  }

  /** Only the arc of the edge itself can be new. */
  lemma RedirectArcs(g: Graph, e: EdgeId, to: Option<NodeId>)
    requires WellFormed(g) && e in g.edges
    ensures forall u: NodeId, v: NodeId | Arc(ArcsOf(Redirect(g, e, to)), u, v) ::
              Arc(ArcsOf(g), u, v) || (g.edges[e].owner == Bds(u) && to == Some(v))
  {
    var g' := Redirect(g, e, to);
    forall u: NodeId, v: NodeId | Arc(ArcsOf(g'), u, v) && !(g.edges[e].owner == Bds(u) && to == Some(v))
      ensures Arc(ArcsOf(g), u, v)
    {
      var c :| c in Children(g', u) && c in g'.edges && g'.edges[c].bs == Some(v);
      assert c in Children(g, u) && g.edges[c].bs == Some(v);
    }
  }

  lemma RedirectAcyclic(g: Graph, e: EdgeId, to: Option<NodeId>)
    requires WellFormed(g) && AcyclicGraph(g) && e in g.edges
    requires to.Some? && g.edges[e].owner.Bds? ==> !Reach(ArcsOf(g), to.value, g.edges[e].owner.node)
    ensures AcyclicGraph(Redirect(g, e, to))
  {
    RedirectArcs(g, e, to);
    if to.Some? && g.edges[e].owner.Bds? {
      AddArcKeepsAcyclic(ArcsOf(g), ArcsOf(Redirect(g, e, to)), g.edges[e].owner.node, to.value);
    } else {
      FewerArcsKeepAcyclic(ArcsOf(g), ArcsOf(Redirect(g, e, to)));
    }
  }

  // ---------------------------------------------------------------- a new edge

  /** A BdrvChild that points nowhere yet. */
  function AddEdge(g: Graph, e: EdgeId, edge: Edge): Graph {
    g.(edges := g.edges[e := edge])
  }

  function DropEdge(g: Graph, e: EdgeId): Graph {
    g.(edges := map x | x in g.edges && x != e :: g.edges[x])
  }

  lemma AddEdgeWf(g: Graph, e: EdgeId, edge: Edge)
    requires WellFormed(g) && e !in g.edges && edge.bs.None?
    ensures WellFormed(AddEdge(g, e, edge))
    ensures ArcsOf(AddEdge(g, e, edge)) == ArcsOf(g)
    ensures DropEdge(AddEdge(g, e, edge), e) == g
  {
    var g' := AddEdge(g, e, edge);
    forall n | n in g.nodes ensures SlotsWf(g', n) && ChildNodes(g', n) == ChildNodes(g, n) {
      assert SlotsWf(g, n);
    }
    forall x | x in g'.edges ensures EdgeWf(g', x) {
      assert x != e ==> EdgeWf(g, x);
    }
    assert DropEdge(g', e).edges == g.edges;
  }

  lemma DropEdgeWf(g: Graph, e: EdgeId)
    requires WellFormed(g) && e in g.edges && g.edges[e].bs.None?
    ensures WellFormed(DropEdge(g, e))
    ensures ArcsOf(DropEdge(g, e)) == ArcsOf(g)
  {
    var g' := DropEdge(g, e);
    forall n | n in g.nodes ensures SlotsWf(g', n) && ChildNodes(g', n) == ChildNodes(g, n) {
      assert SlotsWf(g, n);
    }
    forall x | x in g'.edges ensures EdgeWf(g', x) {
      assert EdgeWf(g, x);
    }
  }

  // ---------------------------------------------------------------- undo records

  datatype Action =
    | SetPerm(e: EdgeId, perm: Perms, shared: Perms)          // bdrv_child_set_perm
    | Replaced(e: EdgeId, was: Option<NodeId>)                // bdrv_replace_child_tran
    | Removed(e: EdgeId)                                      // bdrv_remove_child
    | Attached(e: EdgeId)                                     // bdrv_attach_child_common
    | DriverPerm(n: NodeId)                                   // bdrv_drv_set_perm
    | Inherited(n: NodeId, before: Option<NodeId>)            // bdrv_set_inherits_from

  function SetMasks(g: Graph, e: EdgeId, perm: Perms, shared: Perms): Graph {
    if e in g.edges then g.(edges := g.edges[e := WithMasks(g.edges[e], (perm, shared))]) else g
  }

  function InheritsOf(inherits: map<NodeId, NodeId>, n: NodeId): Option<NodeId> {
    if n in inherits then Some(inherits[n]) else None
  }

  function SetInherits(g: Graph, n: NodeId, from: Option<NodeId>): Graph {
    g.(inherits := if from.Some? then g.inherits[n := from.value] else Orphaned(g.inherits, {n}))
  }

  /** inherits_from with the links of some nodes cleared. */
  function Orphaned(inherits: map<NodeId, NodeId>, gone: set<NodeId>): map<NodeId, NodeId> {
    map n | n in inherits && n !in gone :: inherits[n]
  }

  lemma InheritsBack(g: Graph, n: NodeId, from: Option<NodeId>)
    ensures SetInherits(SetInherits(g, n, from), n, InheritsOf(g.inherits, n)) == g
  {
    assert SetInherits(SetInherits(g, n, from), n, InheritsOf(g.inherits, n)).inherits == g.inherits;
  }

  /** The abort callback of a record, as far as the graph is concerned. */
  function Undo(g: Graph, a: Action): Graph {
    match a
    case SetPerm(e, perm, shared) => SetMasks(g, e, perm, shared)
    case Replaced(e, was) => if e in g.edges then Redirect(g, e, was) else g
    case Removed(e) => g
    case Attached(e) => if e in g.edges then DropEdge(Redirect(g, e, None), e) else g
    case DriverPerm(n) => g
    case Inherited(n, before) => SetInherits(g, n, before)
  }

  function UndoAll(g: Graph, log: seq<Action>): Graph
    decreases |log|
  {
    if log == [] then g else UndoAll(Undo(g, log[|log| - 1]), log[..|log| - 1])
  }

  lemma MasksBack(g: Graph, e: EdgeId, perm: Perms, shared: Perms)
    requires e in g.edges
    ensures SetMasks(SetMasks(g, e, perm, shared), e, g.edges[e].perm, g.edges[e].shared) == g
  {
  }

  lemma AttachBack(g: Graph, e: EdgeId, edge: Edge, to: NodeId)
    requires WellFormed(g) && e !in g.edges && edge.bs.None? && SlotFree(AddEdge(g, e, edge), e)
    ensures Undo(Redirect(AddEdge(g, e, edge), e, Some(to)), Attached(e)) == g
  {
    AddEdgeWf(g, e, edge);
    RedirectBack(AddEdge(g, e, edge), e, Some(to));
  }
}
