/**
 What an operation on the block graph leaves behind once it is committed: no new conflict, no
 frozen edge moved, and consistency that does not depend on the edges that were freed.
 */
module GraphResults {
  import opened Basics
  import opened Reachability
  import opened BlockGraph
  import opened GraphWalks
  import opened Permissions
  import opened GraphEdits
  import opened Transactions
  import opened GraphChanges

  // ---------------------------------------------------------------- conflicts

  /** Every edge of g1 was in g with the same target and masks, except edges to nodes of `tos`. */
  ghost predicate OldEdgesExcept(g: Graph, g1: Graph, tos: set<NodeId>) {
    g1.nodes.Keys == g.nodes.Keys && forall e | e in g1.edges && g1.edges[e].bs.Some? && g1.edges[e].bs.value !in tos ::
      e in g.edges && g.edges[e].bs == g1.edges[e].bs && g.edges[e].perm == g1.edges[e].perm
        && g.edges[e].shared == g1.edges[e].shared
  }

  lemma OldEdgesTrans(g: Graph, g1: Graph, g2: Graph, s1: set<NodeId>, s2: set<NodeId>)
    requires OldEdgesExcept(g, g1, s1) && OldEdgesExcept(g1, g2, s2)
    ensures OldEdgesExcept(g, g2, s1 + s2)
  {
  }

  lemma LinkedOldEdges(g: Graph, e: EdgeId, edge: Edge, to: NodeId)
    ensures OldEdgesExcept(g, LinkNew(g, e, edge, to), {to})
  {
  }

  lemma ClearedOldEdges(g: Graph, slot: Option<EdgeId>)
    ensures OldEdgesExcept(g, Cleared(g, slot), {})
  {
  }

  lemma RewiredOldEdges(g: Graph, g1: Graph, moved: set<EdgeId>, to: NodeId)
    requires Rewired(g, g1, moved, to)
    ensures OldEdgesExcept(g, g1, {to})
  {
  }

  lemma OldParents(g: Graph, g1: Graph, tos: set<NodeId>, n: NodeId)
    requires WellFormed(g) && WellFormed(g1) && OldEdgesExcept(g, g1, tos) && n in g1.nodes && n !in tos
    ensures NoNewParent(g, g1, n)
  {
    forall e | e in Parents(g1, n) ensures e in Parents(g, n) {
      assert EdgeWf(g, e);
    }
  }

  /** An operation that points edges only to `tos`, and then refreshes subtrees with `tos` in them, brings
      no conflict. */
  lemma NoConflictByEdges(h: Hooks, t: Txn, t1: Txn, tos: set<NodeId>, roots: seq<NodeId>, g': Graph)
    requires Open(t) && Open(t1) && OldEdgesExcept(t.g, t1.g, tos) && AllInSubtrees(t1.g, tos, roots)
    requires Refreshed(h, t1.g, roots, g')
    ensures ConflictFree(t.g) ==> ConflictFree(g')
  {
    if ConflictFree(t.g) {
      forall n | n in t1.g.nodes && !InSubtrees(t1.g, roots, n) ensures NoNewParent(t.g, t1.g, n) {
        OldParents(t.g, t1.g, tos, n);
      }
      NoNewConflict(h, t.g, t1.g, roots, g');
    }
  }

  ghost predicate AllInSubtrees(g: Graph, tos: set<NodeId>, roots: seq<NodeId>) {
    forall n | n in tos :: InSubtrees(g, roots, n)
  }

  lemma LinkedInSubtree(g: Graph, e: EdgeId, parent: NodeId, child: NodeId)
    requires WellFormed(g) && e in g.edges && g.edges[e].owner == Bds(parent) && g.edges[e].bs == Some(child)
    ensures InSubtrees(g, [parent], child)
  {
    EdgeIsArc(g, e);
    ReachArc(ArcsOf(g), parent, child);
    assert parent in [parent];
  }

  lemma RootInSubtrees(g: Graph, roots: seq<NodeId>, x: NodeId)
    requires x in roots
    ensures InSubtrees(g, roots, x)
  {
    ReachSelf(ArcsOf(g), x);
  }

  // ---------------------------------------------------------------- frozen edges

  lemma FrozenTrans(g: Graph, g1: Graph, g2: Graph)
    requires FrozenKept(g, g1) && FrozenKept(g1, g2)
    ensures FrozenKept(g, g2)
  {
  }

  lemma FrozenLinked(g: Graph, e: EdgeId, edge: Edge, to: NodeId)
    requires e !in g.edges
    ensures FrozenKept(g, LinkNew(g, e, edge, to))
  {
  }

  lemma FrozenRewired(g: Graph, g': Graph, from: NodeId, to: NodeId)
    requires Rewired(g, g', Movable(g, from, to), to) && CanReplaceNode(g, from, to, true)
    ensures FrozenKept(g, g')
  {
  }

  lemma FrozenRefreshed(h: Hooks, g: Graph, roots: seq<NodeId>, g': Graph)
    requires Refreshed(h, g, roots, g')
    ensures FrozenKept(g, g')
  {
  }

  lemma FrozenSlotSet(h: Hooks, g: Graph, e: EdgeId, n: NodeId, child: Option<NodeId>, isBacking: bool)
    requires WellFormed(g) && n in g.nodes && SlotStatus(g, n, isBacking).Ok? && e !in g.edges
    ensures FrozenKept(g, SlotSet(h, g, e, n, child, isBacking))
  {
    var g1 := Cleared(g, SlotEdge(g, n, isBacking));
    assert FrozenKept(g, g1);
    if child.Some? {
      FrozenLinked(g1, e, NewEdge(h, g1, n, child.value, SlotRole(g, n, isBacking)), child.value);
      FrozenTrans(g, g1, SlotEdges(h, g, e, n, child, isBacking));
    }
  }

  lemma FrozenWithout(g: Graph, g': Graph, gone: set<EdgeId>)
    requires FrozenKept(g, g') && forall e | e in gone && e in g.edges :: !g.edges[e].frozen
    ensures FrozenKept(g, Without(g', gone))
  {
  }

  // ---------------------------------------------------------------- freed edges

  ghost predicate AllDetached(g: Graph, gone: set<EdgeId>) {
    forall e | e in gone && e in g.edges :: g.edges[e].bs.None?
  }

  lemma WithoutShape(g: Graph, gone: set<EdgeId>)
    requires WellFormed(g) && AllDetached(g, gone)
    ensures ArcsOf(Without(g, gone)) == ArcsOf(g)
    ensures forall n, e | n in g.nodes && e in g.nodes[n].children + g.nodes[n].parents :: e in g.edges && e !in gone
  {
    var g' := Without(g, gone);
    forall n | n in g.nodes ensures ChildNodes(g', n) == ChildNodes(g, n) {
      assert forall e | e in g.nodes[n].children :: e in g'.edges && g'.edges[e] == g.edges[e];
    }
  }

  lemma WithoutConsistent(h: Hooks, g: Graph, gone: set<EdgeId>, n: NodeId)
    requires WellFormed(g) && AllDetached(g, gone) && n in g.nodes
    ensures Consistent(h, Without(g, gone), n) <==> Consistent(h, g, n)
    ensures Conflict(Without(g, gone), n) <==> Conflict(g, n)
  {
    var g' := Without(g, gone);
    WithoutShape(g, gone);
    assert forall e | e in Parents(g, n) :: e in g'.edges && g'.edges[e] == g.edges[e];
    assert CumulativePerm(g', n) == CumulativePerm(g, n);
    assert CumulativeShared(g', n) == CumulativeShared(g, n);
    assert forall e | e in g.nodes[n].children :: e in g'.edges && g'.edges[e] == g.edges[e];
  }

  /** Freeing detached edges after a refresh is the same as before it. */
  lemma RefreshedWithout(h: Hooks, g: Graph, roots: seq<NodeId>, g': Graph, gone: set<EdgeId>)
    requires WellFormed(g) && AllDetached(g, gone) && Refreshed(h, g, roots, g')
    ensures Refreshed(h, Without(g, gone), roots, Without(g', gone))
    ensures ConflictFree(g') ==> ConflictFree(Without(g', gone))
  {
    WithoutShape(g, gone);
    MasksChangedKeepsShape(g, g', SubtreeSetters(g, roots));
    assert SubtreeSetters(Without(g, gone), roots) == SubtreeSetters(g, roots);
    forall n | n in g.nodes ensures Consistent(h, Without(g', gone), n) <==> Consistent(h, g', n) {
      WithoutConsistent(h, g', gone, n);
    }
    forall n | n in g.nodes ensures Conflict(Without(g', gone), n) <==> Conflict(g', n) {
      WithoutConsistent(h, g', gone, n);
    }
  }

  lemma WithoutNothing(g: Graph)
    ensures Without(g, {}) == g
  {
    assert Without(g, {}).edges == g.edges;
  }

  // ---------------------------------------------------------------- operations

  /** No frozen edge is touched, and no conflict is new; for proofs that mention g'. */
  ghost predicate Harmless(g: Graph, g': Graph) {
    forall k {:trigger Mentioned(k)} | Mentioned(k) && k == g' ::
           FrozenKept(g, k) && (ConflictFree(g) ==> ConflictFree(k))
  }

  lemma SameIsHarmless(g: Graph)
    ensures Harmless(g, g)
  {
  }

  /** What bdrv_attach_child promises.  On failure nothing changed, and it fails only if the edge would
      close a loop, no AioContext suits both ends (`joins`) or no masks fit; on success the edge is there
      and the masks fit. */
  ghost predicate AttachOutcome(h: Hooks, g: Graph, e: EdgeId, parent: NodeId, child: NodeId, role: Role, joins: bool,
                                ok: bool, g': Graph) {
    var g1 := Linked(h, g, e, parent, child, role);
    && (ok <==> !Reach(ArcsOf(g), child, parent) && joins && Refreshable(h, g1, [parent]))
    && (if ok then e !in g.edges && RefreshedTo(h, g1, [parent], g') else g' == g)
    && Harmless(g, g')
  }

  lemma AttachRefused(h: Hooks, t: Txn, parent: NodeId, child: NodeId, role: Role, joins: bool)
    requires Reach(ArcsOf(t.g), child, parent) || !joins
    ensures AttachOutcome(h, t.g, t.nextEdge, parent, child, role, joins, false, t.g)
  {
    SameIsHarmless(t.g);
  }

  lemma AttachHarmless(h: Hooks, t: Txn, t1: Txn, parent: NodeId, child: NodeId, role: Role, g': Graph)
    requires Open(t) && Open(t1) && t1.g == Linked(h, t.g, t.nextEdge, parent, child, role)
    requires Refreshed(h, t1.g, [parent], g')
    ensures Harmless(t.g, g')
  {
    LinkedFrozen(h, t.g, t.nextEdge, parent, child, role, [parent], g');
    LinkedEdges(h, t.g, t.nextEdge, parent, child, role, t1.g);
    NoConflictByEdges(h, t, t1, {child}, [parent], g');
  }

  lemma AttachResult(h: Hooks, t: Txn, t1: Txn, parent: NodeId, child: NodeId, role: Role, ok: bool, g': Graph)
    requires Open(t) && Open(t1) && t1.g == Linked(h, t.g, t.nextEdge, parent, child, role) && child in t.g.nodes
    requires !Reach(ArcsOf(t.g), child, parent)
    requires if ok then Refreshed(h, t1.g, [parent], g') else g' == t.g && !Refreshable(h, t1.g, [parent])
    ensures AttachOutcome(h, t.g, t.nextEdge, parent, child, role, true, ok, g')
  {
    if ok {
      AttachHarmless(h, t, t1, parent, child, role, g');
    } else {
      SameIsHarmless(t.g);
    }
  }

  /** AttachOutcome, for proofs that need not look into it. */
  ghost predicate AttachPromised(h: Hooks, g: Graph, e: EdgeId, parent: NodeId, child: NodeId, role: Role, joins: bool,
                                 ok: bool, g': Graph) {
    forall k {:trigger Mentioned(k)} | Mentioned(k) && k == g' ::
           AttachOutcome(h, g, e, parent, child, role, joins, ok, k)
  }

  /** All that is left to do from g1 on is the refresh. */
  ghost predicate AttachReady(h: Hooks, t: Txn, g1: Graph, parent: NodeId, child: NodeId, role: Role) {
    && (forall g' | RefreshedTo(h, g1, [parent], g') ::
          AttachPromised(h, t.g, t.nextEdge, parent, child, role, true, true, g'))
    && (!Refreshable(h, g1, [parent]) ==> AttachPromised(h, t.g, t.nextEdge, parent, child, role, true, false, t.g))
  }

  lemma AttachIsReady(h: Hooks, t: Txn, t1: Txn, parent: NodeId, child: NodeId, role: Role)
    requires Open(t) && Open(t1) && t1.g == Linked(h, t.g, t.nextEdge, parent, child, role) && child in t.g.nodes
    requires !Reach(ArcsOf(t.g), child, parent)
    ensures AttachReady(h, t, t1.g, parent, child, role)
  {
    forall g' | RefreshedTo(h, t1.g, [parent], g')
      ensures AttachPromised(h, t.g, t.nextEdge, parent, child, role, true, true, g')
    {
      assert Mentioned(g');
      AttachResult(h, t, t1, parent, child, role, true, g');
    }
    if !Refreshable(h, t1.g, [parent]) {
      AttachResult(h, t, t1, parent, child, role, false, t.g);
    }
  }

  lemma LinkedFrozen(h: Hooks, g: Graph, e: EdgeId, parent: NodeId, child: NodeId, role: Role, roots: seq<NodeId>,
                     g': Graph)
    requires e !in g.edges && Refreshed(h, Linked(h, g, e, parent, child, role), roots, g')
    ensures FrozenKept(g, g')
  {
    var g1 := Linked(h, g, e, parent, child, role);
    FrozenLinked(g, e, NewEdge(h, g, parent, child, role), child);
    FrozenRefreshed(h, g1, roots, g');
    FrozenTrans(g, g1, g');
  }

  lemma LinkedEdges(h: Hooks, g: Graph, e: EdgeId, parent: NodeId, child: NodeId, role: Role, g1: Graph)
    requires WellFormed(g1) && g1 == Linked(h, g, e, parent, child, role)
    ensures OldEdgesExcept(g, g1, {child}) && AllInSubtrees(g1, {child}, [parent])
  {
    LinkedInSubtree(g1, e, parent, child);
    LinkedOldEdges(g, e, NewEdge(h, g, parent, child, role), child);
  }

  /** What bdrv_root_attach_child promises. */
  ghost predicate RootOutcome(h: Hooks, g: Graph, e: EdgeId, edge: Edge, child: NodeId, joins: bool, ok: bool,
                              g': Graph) {
    var g1 := LinkNew(g, e, edge, child);
    && (ok <==> joins && Refreshable(h, g1, [child]))
    && (if ok then e !in g.edges && RefreshedTo(h, g1, [child], g') else g' == g)
    && Harmless(g, g')
  }

  lemma RootResult(h: Hooks, t: Txn, t1: Txn, edge: Edge, child: NodeId, ok: bool, g': Graph)
    requires Open(t) && Open(t1) && t1.g == LinkNew(t.g, t.nextEdge, edge, child) && t.nextEdge !in t.g.edges
    requires if ok then RefreshedTo(h, t1.g, [child], g') else g' == t.g && !Refreshable(h, t1.g, [child])
    ensures RootOutcome(h, t.g, t.nextEdge, edge, child, true, ok, g')
  {
    if ok {
      assert Mentioned(g');
      FrozenLinked(t.g, t.nextEdge, edge, child);
      FrozenRefreshed(h, t1.g, [child], g');
      FrozenTrans(t.g, t1.g, g');
      LinkedOldEdges(t.g, t.nextEdge, edge, child);
      RootInSubtrees(t1.g, [child], child);
      NoConflictByEdges(h, t, t1, {child}, [child], g');
    } else {
      SameIsHarmless(t.g);
    }
  }

  /** RootOutcome, for proofs that need not look into it. */
  ghost predicate RootPromised(h: Hooks, g: Graph, e: EdgeId, edge: Edge, child: NodeId, joins: bool, ok: bool,
                               g': Graph) {
    forall k {:trigger Mentioned(k)} | Mentioned(k) && k == g' :: RootOutcome(h, g, e, edge, child, joins, ok, k)
  }

  /** All that is left to do from g1 on is the refresh. */
  ghost predicate RootReady(h: Hooks, t: Txn, g1: Graph, edge: Edge, child: NodeId) {
    && (forall g' | RefreshedTo(h, g1, [child], g') :: RootPromised(h, t.g, t.nextEdge, edge, child, true, true, g'))
    && (!Refreshable(h, g1, [child]) ==> RootPromised(h, t.g, t.nextEdge, edge, child, true, false, t.g))
  }

  lemma RootIsReady(h: Hooks, t: Txn, t1: Txn, edge: Edge, child: NodeId)
    requires Open(t) && Open(t1) && t1.g == LinkNew(t.g, t.nextEdge, edge, child) && t.nextEdge !in t.g.edges
    ensures RootReady(h, t, t1.g, edge, child)
  {
    forall g' | RefreshedTo(h, t1.g, [child], g')
      ensures RootPromised(h, t.g, t.nextEdge, edge, child, true, true, g')
    {
      RootResult(h, t, t1, edge, child, true, g');
    }
    if !Refreshable(h, t1.g, [child]) {
      RootResult(h, t, t1, edge, child, false, t.g);
    }
  }

  /** What bdrv_set_backing_hd promises. */
  ghost predicate SetBackingOutcome(h: Hooks, g: Graph, e: EdgeId, n: NodeId, backing: Option<NodeId>, joins: bool,
                                    ok: bool, g': Graph)
    requires n in g.nodes
  {
    var g1 := SlotSet(h, g, e, n, backing, true);
    && (ok <==> && SlotStatus(g, n, true).Ok?
                && (backing.Some? ==> !Reach(ArcsOf(g), backing.value, n) && joins)
                && Refreshable(h, g1, [n]))
    && (if ok then e !in g.edges && RefreshedTo(h, Without(g1, SlotGone(g, n, true)), [n], g') else g' == g)
    && Harmless(g, g')
  }

  /** In terms of edges: the old backing edge is gone, the new one is there, and no other edge differs in
      more than its masks.  A new backing file that inherited from n on some way now does so directly; a node
      below the old one that is no other child of n no longer inherits from n; all others inherit as before. */
  ghost predicate BackingIs(g: Graph, e: EdgeId, n: NodeId, backing: Option<NodeId>, g': Graph)
    requires n in g.nodes
  {
    && g'.edges.Keys == g.edges.Keys - SlotGone(g, n, true) + (if backing.Some? then {e} else {})
    && (backing.Some? ==> g'.edges[e].owner == Bds(n) && g'.edges[e].bs == backing
                          && g'.edges[e].role == SlotRole(g, n, true) && !g'.edges[e].frozen)
    && (forall x | x in g.edges && x !in SlotGone(g, n, true) ::
          x in g'.edges && g'.edges[x] == WithMasks(g.edges[x], (g'.edges[x].perm, g'.edges[x].shared)))
    && InheritsMoved(g, n, backing, g'.inherits)
  }

  ghost predicate InheritsMoved(g: Graph, n: NodeId, backing: Option<NodeId>, inherits: map<NodeId, NodeId>)
    requires n in g.nodes
  {
    forall m: NodeId {:trigger InheritsOf(inherits, m)} :: InheritsOf(inherits, m) ==
      if backing == Some(m) && Reach(Lineage(g.inherits), m, n) then Some(n)
      else if m in SlotDisowned(g, n, true) then None
      else InheritsOf(g.inherits, m)
  }

  lemma SlotInheritsMoved(g: Graph, n: NodeId, backing: Option<NodeId>)
    requires n in g.nodes
    ensures InheritsMoved(g, n, backing, SlotInherits(g, n, backing, true))
  {
  }

  lemma SlotSetMeans(h: Hooks, g: Graph, e: EdgeId, n: NodeId, backing: Option<NodeId>)
    requires n in g.nodes && e !in g.edges && (forall x | x in SlotGone(g, n, true) :: x in g.edges)
    ensures BackingIs(g, e, n, backing, Without(SlotSet(h, g, e, n, backing, true), SlotGone(g, n, true)))
  {
    SlotInheritsMoved(g, n, backing);
  }

  lemma MasksKeepBacking(g: Graph, e: EdgeId, n: NodeId, backing: Option<NodeId>, g1: Graph, owners: set<NodeId>,
                         g': Graph)
    requires n in g.nodes && e !in g.edges && BackingIs(g, e, n, backing, g1) && MasksChanged(g1, g', owners)
    ensures BackingIs(g, e, n, backing, g')
  {
  }

  lemma SetBackingMeans(h: Hooks, g: Graph, e: EdgeId, n: NodeId, backing: Option<NodeId>, joins: bool, g': Graph)
    requires WellFormed(g) && n in g.nodes && SetBackingOutcome(h, g, e, n, backing, joins, true, g')
    ensures BackingIs(g, e, n, backing, g')
  {
    assert Mentioned(g');
    assert SlotsWf(g, n);
    var g1 := Without(SlotSet(h, g, e, n, backing, true), SlotGone(g, n, true));
    SlotSetMeans(h, g, e, n, backing);
    MasksKeepBacking(g, e, n, backing, g1, SubtreeSetters(g1, [n]), g');
  }

  lemma SetBackingRefused(h: Hooks, t: Txn, n: NodeId, backing: Option<NodeId>, joins: bool)
    requires n in t.g.nodes
    requires !SlotStatus(t.g, n, true).Ok? || (backing.Some? && (Reach(ArcsOf(t.g), backing.value, n) || !joins))
    ensures SetBackingOutcome(h, t.g, t.nextEdge, n, backing, joins, false, t.g)
  {
    SameIsHarmless(t.g);
  }

  lemma SetBackingHarmless(h: Hooks, t: Txn, t1: Txn, n: NodeId, backing: Option<NodeId>, g': Graph)
    requires Open(t) && Open(t1) && n in t.g.nodes && t1.g == SlotSet(h, t.g, t.nextEdge, n, backing, true)
    requires SlotStatus(t.g, n, true).Ok? && Refreshed(h, t1.g, [n], g')
    ensures Harmless(t.g, Without(g', SlotGone(t.g, n, true)))
  {
    SlotSetDetached(h, t.g, t.nextEdge, n, backing);
    RefreshedWithout(h, t1.g, [n], g', SlotGone(t.g, n, true));
    SlotSetFrozen(h, t.g, t.nextEdge, n, backing, g');
    SlotSetEdges(h, t.g, t.nextEdge, n, backing, t1.g);
    NoConflictByEdges(h, t, t1, if backing.Some? then {backing.value} else {}, [n], g');
  }

  lemma SetBackingResult(h: Hooks, t: Txn, t1: Txn, n: NodeId, backing: Option<NodeId>, joins: bool, ok: bool,
                         g': Graph)
    requires Open(t) && Open(t1) && n in t.g.nodes && t1.g == SlotSet(h, t.g, t.nextEdge, n, backing, true)
    requires SlotStatus(t.g, n, true).Ok?
    requires backing.Some? ==> backing.value in t.g.nodes && !Reach(ArcsOf(t.g), backing.value, n) && joins
    requires if ok then Refreshed(h, t1.g, [n], g') else g' == t.g && !Refreshable(h, t1.g, [n])
    ensures SetBackingOutcome(h, t.g, t.nextEdge, n, backing, joins, ok,
            if ok then Without(g', SlotGone(t.g, n, true)) else t.g)
  {
    if ok {
      SlotSetDetached(h, t.g, t.nextEdge, n, backing);
      RefreshedWithout(h, t1.g, [n], g', SlotGone(t.g, n, true));
      SetBackingHarmless(h, t, t1, n, backing, g');
    } else {
      SameIsHarmless(t.g);
    }
  }

  lemma SlotSetDetached(h: Hooks, g: Graph, e: EdgeId, n: NodeId, backing: Option<NodeId>)
    requires WellFormed(g) && n in g.nodes && e !in g.edges
    ensures AllDetached(SlotSet(h, g, e, n, backing, true), SlotGone(g, n, true))
  {
    assert SlotsWf(g, n);
  }

  lemma SlotSetFrozen(h: Hooks, g: Graph, e: EdgeId, n: NodeId, backing: Option<NodeId>, g': Graph)
    requires WellFormed(g) && n in g.nodes && e !in g.edges && SlotStatus(g, n, true).Ok?
    requires Refreshed(h, SlotSet(h, g, e, n, backing, true), [n], g')
    ensures FrozenKept(g, Without(g', SlotGone(g, n, true)))
  {
    var g1 := SlotSet(h, g, e, n, backing, true);
    FrozenSlotSet(h, g, e, n, backing, true);
    FrozenRefreshed(h, g1, [n], g');
    FrozenTrans(g, g1, g');
    FrozenWithout(g, g', SlotGone(g, n, true));
  }

  lemma SlotSetEdges(h: Hooks, g: Graph, e: EdgeId, n: NodeId, backing: Option<NodeId>, g1: Graph)
    requires WellFormed(g1) && n in g.nodes && g1 == SlotSet(h, g, e, n, backing, true)
    ensures var tos := if backing.Some? then {backing.value} else {};
            OldEdgesExcept(g, g1, tos) && AllInSubtrees(g1, tos, [n])
  {
    var g2 := SlotEdges(h, g, e, n, backing, true);
    InheritsAside(g1, g2.inherits);
    assert g1.(inherits := g2.inherits) == g2;
    SlotOldEdges(h, g, e, n, backing, g2);
  }

  lemma SlotOldEdges(h: Hooks, g: Graph, e: EdgeId, n: NodeId, backing: Option<NodeId>, g2: Graph)
    requires WellFormed(g2) && n in g.nodes && g2 == SlotEdges(h, g, e, n, backing, true)
    ensures var tos := if backing.Some? then {backing.value} else {};
            OldEdgesExcept(g, g2, tos) && AllInSubtrees(g2, tos, [n])
  {
    var g0 := Cleared(g, SlotEdge(g, n, true));
    ClearedOldEdges(g, SlotEdge(g, n, true));
    if backing.Some? {
      LinkedEdges(h, g0, e, n, backing.value, SlotRole(g, n, true), g2);
      OldEdgesTrans(g, g0, g2, {}, {backing.value});
      assert {} + {backing.value} == {backing.value};
    }
  }

  // ---------------------------------------------------------------- replacing a node

  /** g1 is g with all movable parents of `from` moved to `to`. */
  ghost predicate ParentsMoved(g: Graph, g1: Graph, from: NodeId, to: NodeId) {
    WellFormed(g1) && Rewired(g, g1, Movable(g, from, to), to)
  }

  lemma ParentsMovedUnique(g: Graph, g1: Graph, g2: Graph, from: NodeId, to: NodeId)
    requires ParentsMoved(g, g1, from, to) && ParentsMoved(g, g2, from, to)
    ensures g1 == g2
  {
    assert SameNodes(g1, g2) by {
      forall n | n in g1.nodes ensures SameNode(g1.nodes[n], g2.nodes[n]) {
        assert SameNode(g.nodes[n], g1.nodes[n]) && SameNode(g.nodes[n], g2.nodes[n]);
      }
    }
    assert g2.edges == g1.edges;
    EdgesDetermineGraph(g1, g2);
  }

  /** Moving the parents and refreshing leads to g'. */
  ghost predicate MovedAndRefreshed(h: Hooks, g: Graph, from: NodeId, to: NodeId, roots: seq<NodeId>, g': Graph) {
    forall k {:trigger Mentioned(k)} | Mentioned(k) && k == g' ::
      exists g1 :: ParentsMoved(g, g1, from, to) && Refreshed(h, g1, roots, k)
  }

  ghost predicate CanMoveAndRefresh(h: Hooks, g: Graph, from: NodeId, to: NodeId, roots: seq<NodeId>) {
    exists g' :: MovedAndRefreshed(h, g, from, to, roots, g')
  }

  lemma MovedNotRefreshable(h: Hooks, g: Graph, g1: Graph, from: NodeId, to: NodeId, roots: seq<NodeId>)
    requires ParentsMoved(g, g1, from, to)
    ensures Refreshable(h, g1, roots) <==> CanMoveAndRefresh(h, g, from, to, roots)
  {
    if Refreshable(h, g1, roots) {
      var g' :| Refreshed(h, g1, roots, g');
      assert MovedAndRefreshed(h, g, from, to, roots, g');
    }
    if CanMoveAndRefresh(h, g, from, to, roots) {
      var g' :| MovedAndRefreshed(h, g, from, to, roots, g');
      assert Mentioned(g');
      var g2 :| ParentsMoved(g, g2, from, to) && Refreshed(h, g2, roots, g');
      ParentsMovedUnique(g, g1, g2, from, to);
    }
  }

  /** What bdrv_replace_node promises. */
  ghost predicate ReplaceOutcome(h: Hooks, g: Graph, from: NodeId, to: NodeId, autoSkip: bool, ok: bool, g': Graph) {
    && (ok <==> CanReplaceNode(g, from, to, autoSkip) && CanMoveAndRefresh(h, g, from, to, [from, to]))
    && (if ok then MovedAndRefreshed(h, g, from, to, [from, to], g') else g' == g)
    && Harmless(g, g')
  }

  lemma MovedFrozen(h: Hooks, g: Graph, g1: Graph, from: NodeId, to: NodeId, autoSkip: bool, roots: seq<NodeId>,
                    g': Graph)
    requires CanReplaceNode(g, from, to, autoSkip) && ParentsMoved(g, g1, from, to) && Refreshed(h, g1, roots, g')
    ensures FrozenKept(g, g')
  {
    assert CanReplaceNode(g, from, to, true);
    FrozenRewired(g, g1, from, to);
    FrozenRefreshed(h, g1, roots, g');
    FrozenTrans(g, g1, g');
  }

  lemma ReplaceResult(h: Hooks, t: Txn, t1: Txn, from: NodeId, to: NodeId, autoSkip: bool, ok: bool, g': Graph)
    requires Open(t) && Open(t1) && CanReplaceNode(t.g, from, to, autoSkip)
    requires Rewired(t.g, t1.g, Movable(t.g, from, to), to)
    requires if ok then Refreshed(h, t1.g, [from, to], g') else g' == t.g && !Refreshable(h, t1.g, [from, to])
    ensures ReplaceOutcome(h, t.g, from, to, autoSkip, ok, g')
  {
    MovedNotRefreshable(h, t.g, t1.g, from, to, [from, to]);
    if ok {
      assert MovedAndRefreshed(h, t.g, from, to, [from, to], g');
      ReplaceHarmless(h, t, t1, from, to, autoSkip, g');
    } else {
      SameIsHarmless(t.g);
    }
  }

  lemma ReplaceHarmless(h: Hooks, t: Txn, t1: Txn, from: NodeId, to: NodeId, autoSkip: bool, g': Graph)
    requires Open(t) && Open(t1) && CanReplaceNode(t.g, from, to, autoSkip)
    requires Rewired(t.g, t1.g, Movable(t.g, from, to), to)
    requires Refreshed(h, t1.g, [from, to], g')
    ensures Harmless(t.g, g')
  {
    MovedFrozen(h, t.g, t1.g, from, to, autoSkip, [from, to], g');
    RootInSubtrees(t1.g, [from, to], to);
    RewiredOldEdges(t.g, t1.g, Movable(t.g, from, to), to);
    NoConflictByEdges(h, t, t1, {to}, [from, to], g');
  }

  // ---------------------------------------------------------------- dropping a filter

  /** g2 is g with the movable parents of `from` moved to `to`, and the edge e of `from` detached. */
  ghost predicate Bypassed(g: Graph, g2: Graph, from: NodeId, to: NodeId, e: EdgeId) {
    exists g1 :: ParentsMoved(g, g1, from, to) && e in g1.edges && g2 == Redirect(g1, e, None)
  }

  lemma BypassedUnique(g: Graph, g2: Graph, g3: Graph, from: NodeId, to: NodeId, e: EdgeId)
    requires Bypassed(g, g2, from, to, e) && Bypassed(g, g3, from, to, e)
    ensures g2 == g3
  {
    var a :| ParentsMoved(g, a, from, to) && e in a.edges && g2 == Redirect(a, e, None);
    var b :| ParentsMoved(g, b, from, to) && e in b.edges && g3 == Redirect(b, e, None);
    ParentsMovedUnique(g, a, b, from, to);
  }

  ghost predicate CanBypass(h: Hooks, g: Graph, from: NodeId, to: NodeId, e: EdgeId) {
    exists g2 :: Bypassed(g, g2, from, to, e) && Refreshable(h, g2, [from, to])
  }

  ghost predicate BypassedTo(h: Hooks, g: Graph, from: NodeId, to: NodeId, e: EdgeId, g': Graph) {
    forall k {:trigger Mentioned(k)} | Mentioned(k) && k == g' ::
      exists g2 :: Bypassed(g, g2, from, to, e) && Refreshed(h, Without(g2, {e}), [from, to], k)
  }

  /** What bdrv_drop_filter promises for the filter `from` with the filtered child e. */
  ghost predicate DropOutcome(h: Hooks, g: Graph, from: NodeId, to: NodeId, e: EdgeId, ok: bool, g': Graph) {
    && (ok <==> CanReplaceNode(g, from, to, true) && CanBypass(h, g, from, to, e))
    && (if ok then BypassedTo(h, g, from, to, e, g') else g' == g)
    && Harmless(g, g')
  }

  lemma DropRefused(h: Hooks, g: Graph, from: NodeId, to: NodeId, e: EdgeId)
    requires !CanReplaceNode(g, from, to, true)
    ensures DropPromised(h, g, from, to, e, false, g)
  {
    SameIsHarmless(g);
  }

  /** The states after moving the parents (t1) and after detaching the edge (t2). */
  ghost predicate Dropping(t: Txn, t1: Txn, t2: Txn, from: NodeId, to: NodeId, e: EdgeId) {
    && Open(t) && Open(t1) && Open(t2) && CanReplaceNode(t.g, from, to, true)
       && Rewired(t.g, t1.g, Movable(t.g, from, to), to)
    && e in t.g.edges && !t.g.edges[e].frozen && e in t1.g.edges && t2.g == Redirect(t1.g, e, None)
  }

  lemma DropFrozen(h: Hooks, g: Graph, g1: Graph, g2: Graph, from: NodeId, to: NodeId, e: EdgeId, g': Graph)
    requires CanReplaceNode(g, from, to, true) && Rewired(g, g1, Movable(g, from, to), to) && e in g.edges
    requires !g.edges[e].frozen
    requires e in g1.edges && g2 == Redirect(g1, e, None) && Refreshed(h, g2, [from, to], g')
    ensures FrozenKept(g, Without(g', {e}))
  {
    FrozenRewired(g, g1, from, to);
    DetachedFrozen(g1, e);
    FrozenTrans(g, g1, g2);
    FrozenRefreshed(h, g2, [from, to], g');
    FrozenTrans(g, g2, g');
    FrozenWithout(g, g', {e});
  }

  lemma DetachedFrozen(g: Graph, e: EdgeId)
    requires e in g.edges && !g.edges[e].frozen
    ensures FrozenKept(g, Redirect(g, e, None))
  {
  }

  lemma DetachedOldEdges(g: Graph, e: EdgeId)
    requires e in g.edges
    ensures OldEdgesExcept(g, Redirect(g, e, None), {}) && AllDetached(Redirect(g, e, None), {e})
  {
  }

  lemma DropEdges(g: Graph, g1: Graph, g2: Graph, from: NodeId, to: NodeId, e: EdgeId)
    requires Rewired(g, g1, Movable(g, from, to), to) && e in g1.edges && g2 == Redirect(g1, e, None)
    ensures OldEdgesExcept(g, g2, {to}) && AllInSubtrees(g2, {to}, [from, to]) && AllDetached(g2, {e})
  {
    RootInSubtrees(g2, [from, to], to);
    RewiredOldEdges(g, g1, Movable(g, from, to), to);
    DetachedOldEdges(g1, e);
    OldEdgesTrans(g, g1, g2, {to}, {});
    assert {to} + {} == {to};
  }

  lemma DropHarmless(h: Hooks, t: Txn, t1: Txn, t2: Txn, from: NodeId, to: NodeId, e: EdgeId, g': Graph)
    requires Dropping(t, t1, t2, from, to, e) && Refreshed(h, t2.g, [from, to], g')
    ensures Harmless(t.g, Without(g', {e})) && Refreshed(h, Without(t2.g, {e}), [from, to], Without(g', {e}))
  {
    DropFrozen(h, t.g, t1.g, t2.g, from, to, e, g');
    DropEdges(t.g, t1.g, t2.g, from, to, e);
    NoConflictByEdges(h, t, t2, {to}, [from, to], g');
    RefreshedWithout(h, t2.g, [from, to], g', {e});
  }

  lemma DropBypasses(t: Txn, t1: Txn, t2: Txn, from: NodeId, to: NodeId, e: EdgeId)
    requires Dropping(t, t1, t2, from, to, e)
    ensures Bypassed(t.g, t2.g, from, to, e) && forall g2 | Bypassed(t.g, g2, from, to, e) :: g2 == t2.g
  {
    assert ParentsMoved(t.g, t1.g, from, to);
    forall g2 | Bypassed(t.g, g2, from, to, e) ensures g2 == t2.g {
      BypassedUnique(t.g, g2, t2.g, from, to, e);
    }
  }

  lemma DropResult(h: Hooks, t: Txn, t1: Txn, t2: Txn, from: NodeId, to: NodeId, e: EdgeId, ok: bool, g': Graph)
    requires Dropping(t, t1, t2, from, to, e)
    requires if ok then RefreshedTo(h, t2.g, [from, to], g') else g' == t.g && !Refreshable(h, t2.g, [from, to])
    ensures DropOutcome(h, t.g, from, to, e, ok, if ok then Without(g', {e}) else t.g)
  {
    DropBypasses(t, t1, t2, from, to, e);
    if ok {
      assert Mentioned(g');
      DropHarmless(h, t, t1, t2, from, to, e, g');
    } else {
      SameIsHarmless(t.g);
    }
  }

  /** DropOutcome, for proofs that need not look into it. */
  ghost predicate DropPromised(h: Hooks, g: Graph, from: NodeId, to: NodeId, e: EdgeId, ok: bool, g': Graph) {
    forall k {:trigger Mentioned(k)} | Mentioned(k) && k == g' :: DropOutcome(h, g, from, to, e, ok, k)
  }

  /** All that is left to do from g2 on is the refresh. */
  ghost predicate DropReady(h: Hooks, t: Txn, g2: Graph, from: NodeId, to: NodeId, e: EdgeId) {
    && (forall g' | RefreshedTo(h, g2, [from, to], g') :: DropPromised(h, t.g, from, to, e, true, Without(g', {e})))
    && (!Refreshable(h, g2, [from, to]) ==> DropPromised(h, t.g, from, to, e, false, t.g))
  }

  lemma DropIsReady(h: Hooks, t: Txn, t1: Txn, t2: Txn, from: NodeId, to: NodeId, e: EdgeId)
    requires Dropping(t, t1, t2, from, to, e)
    ensures DropReady(h, t, t2.g, from, to, e)
  {
    forall g' | RefreshedTo(h, t2.g, [from, to], g') ensures DropPromised(h, t.g, from, to, e, true, Without(g', {e})) {
      DropResult(h, t, t1, t2, from, to, e, true, g');
    }
    if !Refreshable(h, t2.g, [from, to]) {
      DropResult(h, t, t1, t2, from, to, e, false, t.g);
    }
  }

  /** The parents of `from` have been moved; for proofs that need not look into it. */
  ghost predicate MovedAway(g: Graph, from: NodeId, to: NodeId, g1: Graph) {
    forall k {:trigger Mentioned(k)} | Mentioned(k) && k == g1 ::
      CanReplaceNode(g, from, to, true) && Rewired(g, k, Movable(g, from, to), to)
  }

  lemma LinkTaken(h: Hooks, t: Txn, t1: Txn, t2: Txn, from: NodeId, to: NodeId, e: EdgeId)
    requires Open(t) && Open(t1) && Open(t2) && MovedAway(t.g, from, to, t1.g)
    requires e in t.g.edges && !t.g.edges[e].frozen && e in t1.g.edges && t1.g.edges[e] == t.g.edges[e]
    requires t2.g == Redirect(t1.g, e, None)
    ensures DropReady(h, t, t2.g, from, to, e)
  {
    assert Mentioned(t1.g);
    DropIsReady(h, t, t1, t2, from, to, e);
  }

  // ---------------------------------------------------------------- inserting a node on top

  function BackingRole(g: Graph, n: NodeId): Role
    requires n in g.nodes
  {
    if g.nodes[n].hasDrv && g.nodes[n].drv.isFilter then ROLE_FILTERED else ROLE_COW
  }

  /** What bdrv_append promises. */
  ghost predicate AppendOutcome(h: Hooks, g: Graph, e: EdgeId, bsNew: NodeId, bsTop: NodeId, joins: bool, ok: bool,
                                g': Graph)
    requires bsNew in g.nodes
  {
    var g1 := Linked(h, g, e, bsNew, bsTop, BackingRole(g, bsNew));
    && (ok <==> && !Reach(ArcsOf(g), bsTop, bsNew) && joins
                && CanReplaceNode(g1, bsTop, bsNew, true)
                && CanMoveAndRefresh(h, g1, bsTop, bsNew, [bsNew]))
    && (if ok then e !in g.edges && MovedAndRefreshed(h, g1, bsTop, bsNew, [bsNew], g') else g' == g)
    && Harmless(g, g')
  }

  lemma AppendDistinct(g: Graph, bsNew: NodeId, bsTop: NodeId)
    requires !Reach(ArcsOf(g), bsTop, bsNew)
    ensures bsTop != bsNew
  {
    ReachSelf(ArcsOf(g), bsTop);
  }

  /** The state t2 after the two edits of bdrv_append, and t1 after the first. */
  ghost predicate Appended(h: Hooks, t: Txn, t1: Txn, t2: Txn, bsNew: NodeId, bsTop: NodeId)
    requires bsNew in t.g.nodes
  {
    && Open(t1) && Open(t2) && !Reach(ArcsOf(t.g), bsTop, bsNew)
    && t1.g == Linked(h, t.g, t.nextEdge, bsNew, bsTop, BackingRole(t.g, bsNew))
    && CanReplaceNode(t1.g, bsTop, bsNew, true) && Rewired(t1.g, t2.g, Movable(t1.g, bsTop, bsNew), bsNew)
  }

  /** AppendOutcome, for proofs that need not look into it. */
  ghost predicate AppendPromised(h: Hooks, g: Graph, e: EdgeId, bsNew: NodeId, bsTop: NodeId, joins: bool, ok: bool,
                                 g': Graph)
    requires bsNew in g.nodes
  {
    forall k {:trigger Mentioned(k)} | Mentioned(k) && k == g' :: AppendOutcome(h, g, e, bsNew, bsTop, joins, ok, k)
  }

  /** All that is left to do from g2 on is the refresh. */
  ghost predicate AppendReady(h: Hooks, t: Txn, g2: Graph, bsNew: NodeId, bsTop: NodeId)
    requires bsNew in t.g.nodes
  {
    && (forall g' | RefreshedTo(h, g2, [bsNew], g') :: AppendPromised(h, t.g, t.nextEdge, bsNew, bsTop, true, true, g'))
    && (!Refreshable(h, g2, [bsNew]) ==> AppendPromised(h, t.g, t.nextEdge, bsNew, bsTop, true, false, t.g))
  }

  lemma AppendIsReady(h: Hooks, t: Txn, t1: Txn, t2: Txn, bsNew: NodeId, bsTop: NodeId)
    requires Open(t) && bsNew in t.g.nodes && bsTop in t.g.nodes && Appended(h, t, t1, t2, bsNew, bsTop)
    ensures AppendReady(h, t, t2.g, bsNew, bsTop)
  {
    forall g' | RefreshedTo(h, t2.g, [bsNew], g')
      ensures AppendPromised(h, t.g, t.nextEdge, bsNew, bsTop, true, true, g')
    {
      assert Mentioned(g');
      AppendResult(h, t, t1, t2, bsNew, bsTop, true, g');
    }
    if !Refreshable(h, t2.g, [bsNew]) {
      AppendResult(h, t, t1, t2, bsNew, bsTop, false, t.g);
    }
  }

  lemma AppendRefused(h: Hooks, t: Txn, bsNew: NodeId, bsTop: NodeId, joins: bool)
    requires bsNew in t.g.nodes
    requires var g1 := Linked(h, t.g, t.nextEdge, bsNew, bsTop, BackingRole(t.g, bsNew));
             Reach(ArcsOf(t.g), bsTop, bsNew) || !joins || !CanReplaceNode(g1, bsTop, bsNew, true)
    ensures AppendOutcome(h, t.g, t.nextEdge, bsNew, bsTop, joins, false, t.g)
  {
    SameIsHarmless(t.g);
  }

  lemma AppendResult(h: Hooks, t: Txn, t1: Txn, t2: Txn, bsNew: NodeId, bsTop: NodeId, ok: bool, g': Graph)
    requires Open(t) && bsNew in t.g.nodes && bsTop in t.g.nodes && Appended(h, t, t1, t2, bsNew, bsTop)
    requires if ok then Refreshed(h, t2.g, [bsNew], g') else g' == t.g && !Refreshable(h, t2.g, [bsNew])
    ensures AppendOutcome(h, t.g, t.nextEdge, bsNew, bsTop, true, ok, g')
  {
    MovedNotRefreshable(h, t1.g, t2.g, bsTop, bsNew, [bsNew]);
    if ok {
      assert MovedAndRefreshed(h, t1.g, bsTop, bsNew, [bsNew], g');
      AppendHarmless(h, t, t1, t2, bsNew, bsTop, g');
    } else {
      SameIsHarmless(t.g);
    }
  }

  lemma AppendHarmless(h: Hooks, t: Txn, t1: Txn, t2: Txn, bsNew: NodeId, bsTop: NodeId, g': Graph)
    requires Open(t) && bsNew in t.g.nodes && Appended(h, t, t1, t2, bsNew, bsTop) && Refreshed(h, t2.g, [bsNew], g')
    ensures Harmless(t.g, g')
  {
    var e := t.nextEdge;
    AppendFrozen(h, t.g, e, bsNew, bsTop, BackingRole(t.g, bsNew), t1.g, t2.g, g');
    AppendEdges(h, t.g, e, bsNew, bsTop, BackingRole(t.g, bsNew), t1.g, t2.g);
    NoConflictByEdges(h, t, t2, {bsTop} + {bsNew}, [bsNew], g');
  }

  lemma AppendFrozen(h: Hooks, g: Graph, e: EdgeId, bsNew: NodeId, bsTop: NodeId, role: Role, g1: Graph, g2: Graph,
                     g': Graph)
    requires e !in g.edges && g1 == Linked(h, g, e, bsNew, bsTop, role)
    requires CanReplaceNode(g1, bsTop, bsNew, true) && ParentsMoved(g1, g2, bsTop, bsNew)
    requires Refreshed(h, g2, [bsNew], g')
    ensures FrozenKept(g, g')
  {
    FrozenLinked(g, e, NewEdge(h, g, bsNew, bsTop, role), bsTop);
    MovedFrozen(h, g1, g2, bsTop, bsNew, true, [bsNew], g');
    FrozenTrans(g, g1, g');
  }

  /** The edge from the new node to the old one stays where it is. */
  lemma NewEdgeStays(h: Hooks, g: Graph, e: EdgeId, bsNew: NodeId, bsTop: NodeId, role: Role, g1: Graph, g2: Graph)
    requires WellFormed(g1) && g1 == Linked(h, g, e, bsNew, bsTop, role) && bsNew in g.nodes
    requires Rewired(g1, g2, Movable(g1, bsTop, bsNew), bsNew)
    ensures e in g2.edges && g2.edges[e].owner == Bds(bsNew) && g2.edges[e].bs == Some(bsTop)
  {
    assert EdgeWf(g1, e);
    ReachSelf(ArcsOf(g1), bsNew);
    assert InSubtree(g1, e, bsNew);
  }

  lemma AppendEdges(h: Hooks, g: Graph, e: EdgeId, bsNew: NodeId, bsTop: NodeId, role: Role, g1: Graph, g2: Graph)
    requires WellFormed(g1) && WellFormed(g2) && g1 == Linked(h, g, e, bsNew, bsTop, role) && bsNew in g.nodes
    requires Rewired(g1, g2, Movable(g1, bsTop, bsNew), bsNew)
    ensures OldEdgesExcept(g, g2, {bsTop} + {bsNew})
    ensures AllInSubtrees(g2, {bsTop} + {bsNew}, [bsNew])
  {
    AppendSubtrees(h, g, e, bsNew, bsTop, role, g1, g2);
    LinkedOldEdges(g, e, NewEdge(h, g, bsNew, bsTop, role), bsTop);
    RewiredOldEdges(g1, g2, Movable(g1, bsTop, bsNew), bsNew);
    OldEdgesTrans(g, g1, g2, {bsTop}, {bsNew});
  }

  lemma AppendSubtrees(h: Hooks, g: Graph, e: EdgeId, bsNew: NodeId, bsTop: NodeId, role: Role, g1: Graph, g2: Graph)
    requires WellFormed(g1) && WellFormed(g2) && g1 == Linked(h, g, e, bsNew, bsTop, role) && bsNew in g.nodes
    requires Rewired(g1, g2, Movable(g1, bsTop, bsNew), bsNew)
    ensures AllInSubtrees(g2, {bsTop} + {bsNew}, [bsNew])
  {
    NewEdgeStays(h, g, e, bsNew, bsTop, role, g1, g2);
    LinkedInSubtree(g2, e, bsNew, bsTop);
    RootInSubtrees(g2, [bsNew], bsNew);
  }
}
