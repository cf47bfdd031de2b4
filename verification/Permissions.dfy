/**
 Permission masks of the block graph: cumulative masks, conflicts between the parents of a
 node, and the refresh that recomputes the masks of a topologically sorted list of nodes.

 The main results say that a refresh that succeeds leaves every listed node consistent in the
 final graph, and that it succeeds exactly when a consistent choice of masks exists, which is
 then unique and the one it computes.
 */
module Permissions {
  import opened Basics
  import opened Reachability
  import opened BlockGraph
  import opened GraphWalks

  /** The drivers: bdrv_child_perm, bdrv_check_perm, whether the node is writable and whether its
      size is a multiple of its request alignment. */
  datatype Hooks = Hooks(childPerm: (NodeId, Role, Perms, Perms) -> (Perms, Perms),
                         checkPerm: (NodeId, Perms, Perms) -> bool,
                         writable: NodeId -> bool,
                         aligned: NodeId -> bool)

  /** What all parents of n together need. */
  function CumulativePerm(g: Graph, n: NodeId): Perms {
    set e, p | e in Parents(g, n) && e in g.edges && p in g.edges[e].perm :: p
  }

  /** What all parents of n let others do. */
  function CumulativeShared(g: Graph, n: NodeId): Perms {
    set p | p in PERM_ALL && forall e | e in Parents(g, n) && e in g.edges :: p in g.edges[e].shared
  }

  /** bdrv_parent_perms_conflict: one parent needs what another does not share. */
  ghost predicate Conflict(g: Graph, n: NodeId) {
    exists a, b :: a in Parents(g, n) && b in Parents(g, n) && a in g.edges && b in g.edges && a != b
                   && !(g.edges[b].perm <= g.edges[a].shared)
  }

  /** The checks of bdrv_node_refresh_perm that can refuse the cumulative masks. */
  predicate Acceptable(h: Hooks, hasDrv: bool, n: NodeId, perm: Perms, shared: Perms) {
    && (perm * {Write, WriteUnchanged} != {} ==> h.writable(n) && (Resize in perm || h.aligned(n)))
    && (hasDrv ==> h.checkPerm(n, perm, shared))
  }

  ghost predicate NodeAccepts(h: Hooks, g: Graph, n: NodeId)
    requires n in g.nodes
  {
    Acceptable(h, g.nodes[n].hasDrv, n, CumulativePerm(g, n), CumulativeShared(g, n))
  }

  /** bdrv_child_perm: the masks an edge of n gets when n is used with the given masks. */
  function ChildPerm(h: Hooks, g: Graph, n: NodeId, role: Role, child: Option<NodeId>, perm: Perms,
                     shared: Perms): (Perms, Perms) {
    var (nperm, nshared) := h.childPerm(n, role, perm, shared);
    (nperm, if child.Some? && child.value in g.nodes && g.nodes[child.value].forceShare then PERM_ALL else nshared)
  }

  function DerivedMasks(h: Hooks, g: Graph, n: NodeId, e: EdgeId): (Perms, Perms)
    requires e in g.edges
  {
    ChildPerm(h, g, n, g.edges[e].role, g.edges[e].bs, CumulativePerm(g, n), CumulativeShared(g, n))
  }

  /** Nodes whose child masks the refresh sets. */
  predicate SetsChildren(g: Graph, n: NodeId)
    requires n in g.nodes
  {
    g.nodes[n].hasDrv && g.nodes[n].drv.hasChildPerm
  }

  /** Every child edge of n carries the masks derived from the cumulative masks of n. */
  ghost predicate MasksDerived(h: Hooks, g: Graph, n: NodeId)
    requires n in g.nodes
  {
    SetsChildren(g, n) ==>
      forall e | e in g.nodes[n].children && e in g.edges ::
        (g.edges[e].perm, g.edges[e].shared) == DerivedMasks(h, g, n, e)
  }

  ghost predicate Consistent(h: Hooks, g: Graph, n: NodeId)
    requires n in g.nodes
  {
    !Conflict(g, n) && NodeAccepts(h, g, n) && MasksDerived(h, g, n)
  }

  // ---------------------------------------------------------------- the refresh

  function WithMasks(e: Edge, masks: (Perms, Perms)): Edge {
    e.(perm := masks.0, shared := masks.1)
  }

  /** bdrv_node_refresh_perm on a node that accepts its cumulative masks. */
  function RefreshNode(h: Hooks, g: Graph, n: NodeId): Graph
    requires n in g.nodes
  {
    if SetsChildren(g, n) then
      g.(edges := map e | e in g.edges ::
           if e in g.nodes[n].children then WithMasks(g.edges[e], DerivedMasks(h, g, n, e)) else g.edges[e])
    else g
  }

  /** bdrv_do_refresh_perms; None if some node refuses. */
  ghost function Refresh(h: Hooks, g: Graph, list: seq<NodeId>): Option<Graph>
    requires forall n | n in list :: n in g.nodes
    decreases |list|
  {
    if list == [] then Some(g)
    else if Conflict(g, list[0]) || !NodeAccepts(h, g, list[0]) then None
    else Refresh(h, RefreshNode(h, g, list[0]), list[1..])
  }

  function Setters(g: Graph, list: seq<NodeId>): set<NodeId> {
    set n | n in list && n in g.nodes && SetsChildren(g, n)
  }

  /** The two graphs differ at most in the masks of edges owned by nodes of `owners`. */
  ghost predicate MasksChanged(g: Graph, g': Graph, owners: set<NodeId>) {
    && g'.nodes == g.nodes && g'.inherits == g.inherits
    && g'.edges.Keys == g.edges.Keys
    && forall e | e in g.edges ::
         && g'.edges[e] == WithMasks(g.edges[e], (g'.edges[e].perm, g'.edges[e].shared))
         && (g'.edges[e] != g.edges[e] ==> exists n :: n in owners && e in Children(g, n))
  }

  lemma MasksChangedKeepsShape(g: Graph, g': Graph, owners: set<NodeId>)
    requires MasksChanged(g, g', owners)
    ensures ArcsOf(g') == ArcsOf(g)
    ensures WellFormed(g) ==> WellFormed(g')
  {
    forall n | n in g.nodes ensures ChildNodes(g', n) == ChildNodes(g, n) {
    }
    if WellFormed(g) {
      MasksChangedWf(g, g', owners);
    }
  }

  lemma MasksChangedWf(g: Graph, g': Graph, owners: set<NodeId>)
    requires MasksChanged(g, g', owners) && WellFormed(g)
    ensures WellFormed(g')
  {
    forall e | e in g'.edges ensures EdgeWf(g', e) {
      assert EdgeWf(g, e);
    }
    forall n | n in g'.nodes ensures SlotsWf(g', n) {
      assert SlotsWf(g, n);
    }
  }

  lemma RefreshNodeChanges(h: Hooks, g: Graph, n: NodeId)
    requires n in g.nodes
    ensures MasksChanged(g, RefreshNode(h, g, n), Setters(g, [n]))
  {
    assert SetsChildren(g, n) ==> n in Setters(g, [n]);
  }

  lemma MasksChangedTrans(g: Graph, g1: Graph, g2: Graph, s1: set<NodeId>, s2: set<NodeId>)
    requires MasksChanged(g, g1, s1) && MasksChanged(g1, g2, s2)
    ensures MasksChanged(g, g2, s1 + s2)
  {
    forall e | e in g.edges && g2.edges[e] != g.edges[e]
      ensures exists n :: n in s1 + s2 && e in Children(g, n)
    {
      if g1.edges[e] != g.edges[e] {
        var n :| n in s1 && e in Children(g, n);
        assert n in s1 + s2;
      } else {
        var n :| n in s2 && e in Children(g1, n);
        assert n in s1 + s2 && e in Children(g, n);
      }
    }
  }

  /** A node whose parents do not belong to `owners` sees no change of its cumulative masks. */
  lemma ParentsUntouched(h: Hooks, g: Graph, g': Graph, owners: set<NodeId>, n: NodeId)
    requires WellFormed(g) && MasksChanged(g, g', owners) && n in g.nodes
    requires forall x | x in owners :: !Arc(ArcsOf(g), x, n)
    ensures forall e | e in Parents(g, n) :: g'.edges[e] == g.edges[e]
    ensures CumulativePerm(g', n) == CumulativePerm(g, n)
    ensures CumulativeShared(g', n) == CumulativeShared(g, n)
    ensures Conflict(g', n) <==> Conflict(g, n)
  {
    forall e | e in Parents(g, n) ensures g'.edges[e] == g.edges[e] {
      if x :| x in owners && e in Children(g, x) {
        EdgeIsArc(g, e);
      }
    }
  }

  lemma DerivedUntouched(h: Hooks, g: Graph, g': Graph, owners: set<NodeId>, n: NodeId)
    requires WellFormed(g) && MasksChanged(g, g', owners) && n in g.nodes
    requires n !in owners && forall x | x in owners :: !Arc(ArcsOf(g), x, n)
    ensures Consistent(h, g', n) <==> Consistent(h, g, n)
  {
    ParentsUntouched(h, g, g', owners, n);
    forall e | e in g.nodes[n].children ensures g'.edges[e] == g.edges[e] {
      assert g.edges[e].owner == Bds(n);
    }
  }

  /** The rest of a sorted list holds no parent of its head. */
  lemma HeadHasNoParentBehind(a: Arcs, list: seq<NodeId>)
    requires TopoSorted(a, list) && list != []
    ensures TopoSorted(a, list[1..])
    ensures list[0] !in list[1..]
    ensures forall x | x in list :: !Arc(a, x, list[0])
  {
    forall i, y | 0 <= i < |list[1..]| && Arc(a, list[1..][i], y) ensures y in list[1..][i + 1..] {
      assert Arc(a, list[i + 1], y);
      assert list[1..][i + 1..] == list[i + 2..];
    }
    forall x | x in list ensures !Arc(a, x, list[0]) {
      var i :| 0 <= i < |list| && list[i] == x;
      assert list[0] !in list[i + 1..];
    }
  }

  lemma {:induction false} RefreshChanges(h: Hooks, g: Graph, list: seq<NodeId>)
    requires (forall n | n in list :: n in g.nodes) && Refresh(h, g, list).Some?
    ensures MasksChanged(g, Refresh(h, g, list).value, Setters(g, list))
    decreases |list|
  {
    if list != [] {
      var g1 := RefreshNode(h, g, list[0]);
      RefreshNodeChanges(h, g, list[0]);
      RefreshChanges(h, g1, list[1..]);
      MasksChangedTrans(g, g1, Refresh(h, g, list).value, Setters(g, [list[0]]), Setters(g1, list[1..]));
      assert Setters(g, [list[0]]) + Setters(g1, list[1..]) == Setters(g, list);
    }
  }

  lemma RefreshNodeDerives(h: Hooks, g: Graph, n: NodeId)
    requires WellFormed(g) && n in g.nodes && !Arc(ArcsOf(g), n, n)
    ensures MasksDerived(h, RefreshNode(h, g, n), n)
    ensures CumulativePerm(RefreshNode(h, g, n), n) == CumulativePerm(g, n)
    ensures CumulativeShared(RefreshNode(h, g, n), n) == CumulativeShared(g, n)
    ensures Conflict(RefreshNode(h, g, n), n) <==> Conflict(g, n)
  {
    RefreshNodeChanges(h, g, n);
    ParentsUntouched(h, g, RefreshNode(h, g, n), Setters(g, [n]), n);
  }

  /** A refresh that succeeds leaves every listed node consistent in the final graph: no later
      step breaks what an earlier one checked or set. */
  lemma {:induction false} RefreshMakesConsistent(h: Hooks, g: Graph, list: seq<NodeId>)
    requires WellFormed(g) && TopoSorted(ArcsOf(g), list) && (forall n | n in list :: n in g.nodes)
    requires Refresh(h, g, list).Some?
    ensures var g' := Refresh(h, g, list).value;
            && MasksChanged(g, g', Setters(g, list))
            && forall n | n in list :: n in g'.nodes && Consistent(h, g', n)
    decreases |list|
  {
    RefreshChanges(h, g, list);
    if list != [] {
      var n, g1, g' := list[0], RefreshNode(h, g, list[0]), Refresh(h, g, list).value;
      HeadHasNoParentBehind(ArcsOf(g), list);
      RefreshNodeChanges(h, g, n);
      MasksChangedKeepsShape(g, g1, Setters(g, [n]));
      RefreshNodeDerives(h, g, n);
      assert Consistent(h, g1, n);
      RefreshChanges(h, g1, list[1..]);
      DerivedUntouched(h, g1, g', Setters(g1, list[1..]), n);
      RefreshMakesConsistent(h, g1, list[1..]);
      assert forall x | x in list :: x == n || x in list[1..];
    }
  }

  /** Conversely, masks that make every listed node consistent are found. */
  lemma {:induction false} RefreshFindsMasks(h: Hooks, g: Graph, list: seq<NodeId>, g': Graph)
    requires WellFormed(g) && TopoSorted(ArcsOf(g), list) && (forall n | n in list :: n in g.nodes)
    requires MasksChanged(g, g', Setters(g, list))
    requires forall n | n in list :: n in g'.nodes && Consistent(h, g', n)
    ensures Refresh(h, g, list) == Some(g')
    decreases |list|
  {
    if list == [] {
      assert g'.edges == g.edges;
    } else {
      var n, g1 := list[0], RefreshNode(h, g, list[0]);
      HeadHasNoParentBehind(ArcsOf(g), list);
      ParentsUntouched(h, g, g', Setters(g, list), n);
      assert Consistent(h, g', n);
      RefreshNodeChanges(h, g, n);
      MasksChangedKeepsShape(g, g1, Setters(g, [n]));
      RestChanged(h, g, list, g');
      RefreshFindsMasks(h, g1, list[1..], g');
    }
  }

  /** After the head was refreshed, only the masks of the rest still differ from the final ones. */
  lemma RestChanged(h: Hooks, g: Graph, list: seq<NodeId>, g': Graph)
    requires WellFormed(g) && list != [] && list[0] in g.nodes
    requires MasksChanged(g, g', Setters(g, list)) && MasksDerived(h, g', list[0])
    requires CumulativePerm(g', list[0]) == CumulativePerm(g, list[0])
    requires CumulativeShared(g', list[0]) == CumulativeShared(g, list[0])
    ensures MasksChanged(RefreshNode(h, g, list[0]), g', Setters(RefreshNode(h, g, list[0]), list[1..]))
  {
    var n, g1 := list[0], RefreshNode(h, g, list[0]);
    forall e | e in g1.edges && g'.edges[e] != g1.edges[e]
      ensures exists x :: x in Setters(g1, list[1..]) && e in Children(g1, x)
    {
      var x :| x in Setters(g, list) && e in Children(g, x);
      assert x in list[1..] && x in Setters(g1, list[1..]) && e in Children(g1, x);
    }
  }

  /** The refresh succeeds with g' if and only if g' is the graph with other masks below the listed
      nodes in which all of them are consistent.  So it fails only if there is none, and there is
      never more than one. */
  lemma RefreshExact(h: Hooks, g: Graph, list: seq<NodeId>, g': Graph)
    requires WellFormed(g) && TopoSorted(ArcsOf(g), list) && (forall n | n in list :: n in g.nodes)
    ensures Refresh(h, g, list) == Some(g') <==>
            && MasksChanged(g, g', Setters(g, list))
            && forall n | n in list :: n in g'.nodes && Consistent(h, g', n)
  {
    if Refresh(h, g, list) == Some(g') {
      RefreshMakesConsistent(h, g, list);
    } else if MasksChanged(g, g', Setters(g, list)) && forall n | n in list :: n in g'.nodes && Consistent(h, g', n) {
      RefreshFindsMasks(h, g, list, g');
    }
  }

  ghost predicate ConflictFree(g: Graph) {
    forall n | n in g.nodes :: !Conflict(g, n)
  }

  ghost predicate InSubtrees(g: Graph, roots: seq<NodeId>, n: NodeId) {
    exists x :: x in roots && Reach(ArcsOf(g), x, n)
  }

  ghost function SubtreeSetters(g: Graph, roots: seq<NodeId>): set<NodeId> {
    set n | n in g.nodes && InSubtrees(g, roots, n) && SetsChildren(g, n)
  }

  /** g' is g with other masks on edges inside the subtrees of `roots`, and everything in those
      subtrees is consistent. */
  ghost predicate Refreshed(h: Hooks, g: Graph, roots: seq<NodeId>, g': Graph) {
    && MasksChanged(g, g', SubtreeSetters(g, roots))
    && forall n | n in g.nodes && InSubtrees(g, roots, n) :: Consistent(h, g', n)
  }

  /** Refreshed(h, g, roots, g'), for proofs that mention g'. */
  ghost predicate RefreshedTo(h: Hooks, g: Graph, roots: seq<NodeId>, g': Graph) {
    forall k {:trigger Mentioned(k)} | Mentioned(k) && k == g' :: Refreshed(h, g, roots, k)
  }

  ghost predicate Refreshable(h: Hooks, g: Graph, roots: seq<NodeId>) {
    exists g' :: Refreshed(h, g, roots, g')
  }

  /** Refreshing the sorted subtrees of some nodes finds such masks if and only if they exist. */
  lemma RefreshSubtrees(h: Hooks, g: Graph, roots: seq<NodeId>, list: seq<NodeId>, g': Graph)
    requires WellFormed(g) && TopoSorted(ArcsOf(g), list) && (forall n | n in list :: n in g.nodes)
    requires forall r | r in roots :: r in list
    requires forall x | x in list :: InSubtrees(g, roots, x)
    ensures Refresh(h, g, list) == Some(g') <==> Refreshed(h, g, roots, g')
  {
    forall n | n in g.nodes && InSubtrees(g, roots, n) ensures n in list {
      var x :| x in roots && Reach(ArcsOf(g), x, n);
      SortedHoldsSubtrees(ArcsOf(g), list, x, n);
    }
    assert Setters(g, list) == SubtreeSetters(g, roots);
    RefreshExact(h, g, list, g');
  }

  /** A node outside of the subtrees sees no change. */
  lemma RefreshedOutside(h: Hooks, g: Graph, roots: seq<NodeId>, g': Graph, n: NodeId)
    requires WellFormed(g) && Refreshed(h, g, roots, g') && n in g.nodes && !InSubtrees(g, roots, n)
    ensures Conflict(g', n) <==> Conflict(g, n)
  {
    forall x | x in SubtreeSetters(g, roots) ensures !Arc(ArcsOf(g), x, n) {
      var r :| r in roots && Reach(ArcsOf(g), r, x);
      if Arc(ArcsOf(g), x, n) {
        ReachArc(ArcsOf(g), x, n);
        ReachTrans(ArcsOf(g), r, x, n);
      }
    }
    ParentsUntouched(h, g, g', SubtreeSetters(g, roots), n);
  }

  /** The parents of n are among its earlier ones, and hold the masks they held. */
  ghost predicate NoNewParent(g: Graph, g1: Graph, n: NodeId) {
    n in g.nodes && forall e | e in Parents(g1, n) ::
      e in Parents(g, n) && e in g.edges && e in g1.edges
      && g1.edges[e].perm == g.edges[e].perm && g1.edges[e].shared == g.edges[e].shared
  }

  /** An edit that gives new parents only to nodes whose subtrees are then refreshed brings no conflict. */
  lemma NoNewConflict(h: Hooks, g: Graph, g1: Graph, roots: seq<NodeId>, g': Graph)
    requires WellFormed(g1) && ConflictFree(g) && Refreshed(h, g1, roots, g')
    requires forall n | n in g1.nodes && !InSubtrees(g1, roots, n) :: NoNewParent(g, g1, n)
    ensures ConflictFree(g')
  {
    forall n | n in g'.nodes ensures !Conflict(g', n) {
      if InSubtrees(g1, roots, n) {
        assert Consistent(h, g', n);
      } else {
        RefreshedOutside(h, g1, roots, g', n);
        assert NoNewParent(g, g1, n) && !Conflict(g, n);
      }
    }
  }
}
