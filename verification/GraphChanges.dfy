/**
 What the operations on the block graph change: which edges they move, add and remove, and what
 follows for loops, conflicts and frozen edges.
 */
module GraphChanges {
  import opened Basics
  import opened Reachability
  import opened BlockGraph
  import opened GraphWalks
  import opened Permissions
  import opened GraphEdits
  import opened Transactions

  datatype Status = Ok | Einval | Eperm | DriverError

  // ---------------------------------------------------------------- attaching

  /** What bdrv_child_cb_attach asserts of a new child: the role fits, and the slot it would occupy is free. */
  predicate RoomFor(g: Graph, p: NodeId, role: Role) {
    && p in g.nodes && Fits(g.nodes[p].drv, role)
    && (SlotOf(g.nodes[p].drv, role).BackingSlot? ==> g.nodes[p].backing.None?)
    && (SlotOf(g.nodes[p].drv, role).FileSlot? ==> g.nodes[p].file.None?)
    && (IsFiltered(g.nodes[p].drv, role) ==> g.nodes[p].backing.None? && g.nodes[p].file.None?)
  }

  /** The edge that bdrv_attach_child_noperm creates. */
  function NewEdge(h: Hooks, g: Graph, parent: NodeId, child: NodeId, role: Role): Edge {
    var masks := ChildPerm(h, g, parent, role, Some(child), CumulativePerm(g, parent), CumulativeShared(g, parent));
    Edge(Bds(parent), role, None, masks.0, masks.1, false, false)
  }

  function Linked(h: Hooks, g: Graph, e: EdgeId, parent: NodeId, child: NodeId, role: Role): Graph {
    LinkNew(g, e, NewEdge(h, g, parent, child, role), child)
  }

  lemma RoomIsFree(h: Hooks, g: Graph, e: EdgeId, parent: NodeId, child: NodeId, role: Role)
    requires RoomFor(g, parent, role) && child in g.nodes && !Reach(ArcsOf(g), child, parent)
    ensures CanAttach(g, e, NewEdge(h, g, parent, child, role), child)
  {
  }

  // ---------------------------------------------------------------- moving parents

  /** The edges that replacing `from` by `to` moves. */
  ghost function Movable(g: Graph, from: NodeId, to: NodeId): set<EdgeId> {
    set c | c in Parents(g, from) && CanMove(g, c, to)
  }

  ghost predicate CanMove(g: Graph, c: EdgeId, to: NodeId) {
    c in g.edges && !g.edges[c].stay && !InSubtree(g, c, to)
  }

  /** g' is g with the edges `moved` pointing to `to`. */
  ghost predicate Rewired(g: Graph, g': Graph, moved: set<EdgeId>, to: NodeId) {
    && SameNodes(g, g') && g'.edges.Keys == g.edges.Keys && g'.inherits == g.inherits
    && forall e | e in g.edges :: g'.edges[e] == if e in moved then g.edges[e].(bs := Some(to)) else g.edges[e]
  }

  ghost predicate SameSubtree(g: Graph, g': Graph, to: NodeId) {
    forall c {:trigger InSubtree(g', c, to)} :: InSubtree(g', c, to) <==> InSubtree(g, c, to)
  }

  /** Moving an edge from outside the subtree of `to` leaves that subtree alone. */
  lemma SubtreeKept(g: Graph, e: EdgeId, to: NodeId)
    requires WellFormed(g) && e in g.edges && g.edges[e].bs.Some? && !InSubtree(g, e, to)
    ensures SameSubtree(g, Redirect(g, e, Some(to)), to)
  {
    var g' := Redirect(g, e, Some(to));
    assert EdgeWf(g, e);
    forall u: NodeId | u in g.nodes && Reach(ArcsOf(g), to, u)
      ensures g'.nodes[u].children == g.nodes[u].children && ChildNodes(g', u) == ChildNodes(g, u)
    {
      assert e !in g.nodes[u].children;
    }
    assert SameBelow(ArcsOf(g), ArcsOf(g'), to);
    forall c ensures InSubtree(g', c, to) <==> InSubtree(g, c, to) {
      forall v | v in g.nodes ensures Reach(ArcsOf(g), to, v) <==> Reach(ArcsOf(g'), to, v) {
        SameBelowReach(ArcsOf(g), ArcsOf(g'), to, v);
      }
    }
  }

  /** Redirecting a movable edge closes no loop. */
  lemma MovableCanReplace(g: Graph, c: EdgeId, from: NodeId, to: NodeId)
    requires WellFormed(g) && CanMove(g, c, to) && !g.edges[c].frozen && g.edges[c].bs == Some(from)
    requires from != to && to in g.nodes
    ensures CanReplace(g, c, Some(to))
  {
    assert EdgeWf(g, c);
  }

  /** The parents of `from` that are not in `todo` are dealt with. */
  ghost predicate Replacing(g0: Graph, g: Graph, from: NodeId, to: NodeId, todo: set<EdgeId>) {
    && todo <= Parents(g0, from) && from != to && to in g.nodes
    && Rewired(g0, g, Movable(g0, from, to) - todo, to)
    && SameSubtree(g0, g, to)
    && forall c | c in todo :: c in g0.edges && g0.edges[c].bs == Some(from)
  }

  lemma ReplacingStart(g: Graph, from: NodeId, to: NodeId)
    requires WellFormed(g) && from in g.nodes && to in g.nodes && from != to
    ensures Replacing(g, g, from, to, Parents(g, from))
  {
    assert Movable(g, from, to) - Parents(g, from) == {};
  }

  lemma ReplacingNext(g0: Graph, g: Graph, from: NodeId, to: NodeId, todo: set<EdgeId>, c: EdgeId)
    requires Replacing(g0, g, from, to, todo) && c in todo
    ensures c in g.edges && c in g0.edges && g.edges[c] == g0.edges[c] && g.edges[c].bs == Some(from)
    ensures CanMove(g, c, to) <==> c in Movable(g0, from, to)
    ensures !CanMove(g, c, to) ==> Replacing(g0, g, from, to, todo - {c})
  {
    assert c !in Movable(g0, from, to) - todo;
    if !CanMove(g, c, to) {
      assert Movable(g0, from, to) - (todo - {c}) == Movable(g0, from, to) - todo;
    }
  }

  lemma ReplacingMove(g0: Graph, g: Graph, from: NodeId, to: NodeId, todo: set<EdgeId>, c: EdgeId)
    requires WellFormed(g) && Replacing(g0, g, from, to, todo) && c in todo && CanMove(g, c, to) && !g.edges[c].frozen
    ensures CanReplace(g, c, Some(to)) && Replacing(g0, Redirect(g, c, Some(to)), from, to, todo - {c})
  {
    ReplacingNext(g0, g, from, to, todo, c);
    MovableCanReplace(g, c, from, to);
    SubtreeKept(g, c, to);
    assert Movable(g0, from, to) - (todo - {c}) == Movable(g0, from, to) - todo + {c};
    RewiredMore(g0, g, Movable(g0, from, to) - todo, to, c);
  }

  lemma RewiredMore(g0: Graph, g: Graph, moved: set<EdgeId>, to: NodeId, c: EdgeId)
    requires Rewired(g0, g, moved, to) && c in g.edges
    ensures Rewired(g0, Redirect(g, c, Some(to)), moved + {c}, to)
  {
    forall n | n in g0.nodes ensures SameNode(g0.nodes[n], RedirectNode(g, c, Some(to), n)) {
      assert SameNode(g0.nodes[n], g.nodes[n]);
    }
  }

  /** No parent of `from` refuses to move: a movable one is not frozen, and the others may be skipped. */
  ghost predicate CanReplaceNode(g: Graph, from: NodeId, to: NodeId, autoSkip: bool) {
    FitToMove(g, from, to, autoSkip, {})
  }

  ghost predicate FitToMove(g: Graph, from: NodeId, to: NodeId, autoSkip: bool, todo: set<EdgeId>) {
    forall c | c in Parents(g, from) && c !in todo ::
      if c in Movable(g, from, to) then c in g.edges && !g.edges[c].frozen else autoSkip
  }

  ghost predicate SameTxn(t0: Txn, t: Txn) {
    Open(t) && t.Start() == t0.Start() && RemovedIn(t.log) == RemovedIn(t0.log) && t.nextEdge == t0.nextEdge
  }

  /** The loop of bdrv_replace_node_noperm, with the parents `todo` still to come. */
  ghost predicate Moving(t0: Txn, t: Txn, from: NodeId, to: NodeId, autoSkip: bool, todo: set<EdgeId>) {
    SameTxn(t0, t) && Replacing(t0.g, t.g, from, to, todo) && FitToMove(t0.g, from, to, autoSkip, todo)
  }

  lemma MovingStart(t: Txn, from: NodeId, to: NodeId, autoSkip: bool)
    requires Open(t) && from in t.g.nodes && to in t.g.nodes && from != to
    ensures Moving(t, t, from, to, autoSkip, t.g.nodes[from].parents)
  {
    ReplacingStart(t.g, from, to);
  }

  lemma MovingNext(t0: Txn, t: Txn, from: NodeId, to: NodeId, autoSkip: bool, todo: set<EdgeId>, c: EdgeId)
    requires Moving(t0, t, from, to, autoSkip, todo) && c in todo
    ensures c in t.g.edges && to in t.g.nodes
    ensures CanMove(t.g, c, to) && !t.g.edges[c].frozen ==>
              CanReplace(t.g, c, Some(to)) && Moving(t0, DoReplace(t, c, Some(to)), from, to, autoSkip, todo - {c})
    ensures !CanMove(t.g, c, to) && autoSkip ==> Moving(t0, t, from, to, autoSkip, todo - {c})
    ensures (if CanMove(t.g, c, to) then t.g.edges[c].frozen else !autoSkip) ==>
            !CanReplaceNode(t0.g, from, to, autoSkip)
  {
    ReplacingNext(t0.g, t.g, from, to, todo, c);
    if CanMove(t.g, c, to) && !t.g.edges[c].frozen {
      ReplacingMove(t0.g, t.g, from, to, todo, c);
      ReplaceTxn(t, c, Some(to), DoReplace(t, c, Some(to)));
    }
  }

  lemma MovingDone(t0: Txn, t: Txn, from: NodeId, to: NodeId, autoSkip: bool)
    requires Moving(t0, t, from, to, autoSkip, {})
    ensures CanReplaceNode(t0.g, from, to, autoSkip) && Rewired(t0.g, t.g, Movable(t0.g, from, to), to)
  {
    assert Movable(t0.g, from, to) - {} == Movable(t0.g, from, to);
  }

  lemma ReplaceTxn(t: Txn, e: EdgeId, to: Option<NodeId>, t': Txn)
    requires Open(t) && CanReplace(t.g, e, to)
    requires t' == Noted(t, t.g, Replaced(e, t.g.edges[e].bs), Bump(t.refcnt, to, 1), t.nextEdge)
                   .(g := Redirect(t.g, e, to))
    ensures t' == DoReplace(t, e, to) && Open(t') && t'.Start() == t.Start() && RemovedIn(t'.log) == RemovedIn(t.log)
  {
    RemovedLast(t.log, Replaced(e, t.g.edges[e].bs));
    ReplaceOpen(t, e, to);
  }

  /** A well-formed graph is determined by its edges: the lists and slots of the nodes follow. */
  lemma EdgesDetermineGraph(g: Graph, g': Graph)
    requires WellFormed(g) && WellFormed(g') && SameNodes(g, g') && g'.edges == g.edges && g'.inherits == g.inherits
    ensures g' == g
  {
    forall n | n in g.nodes ensures g'.nodes[n] == g.nodes[n] {
      EdgesDetermineLists(g, g', n);
      assert SlotsWf(g, n) && SlotsWf(g', n);
    }
  }

  lemma EdgesDetermineLists(g: Graph, g': Graph, n: NodeId)
    requires WellFormed(g) && WellFormed(g') && SameNodes(g, g') && g'.edges == g.edges && n in g.nodes
    ensures g'.nodes[n].parents == g.nodes[n].parents && g'.nodes[n].children == g.nodes[n].children
  {
    forall e ensures e in g'.nodes[n].parents <==> e in g.nodes[n].parents {
      assert e in g.edges ==> EdgeWf(g, e) && EdgeWf(g', e);
    }
    forall e ensures e in g'.nodes[n].children <==> e in g.nodes[n].children {
      assert e in g.edges ==> EdgeWf(g, e) && EdgeWf(g', e);
    }
  }

  // ---------------------------------------------------------------- the backing and the file child

  function SlotEdge(g: Graph, n: NodeId, isBacking: bool): Option<EdgeId>
    requires n in g.nodes
  {
    if isBacking then g.nodes[n].backing else g.nodes[n].file
  }

  /** Why bdrv_set_file_or_backing_noperm refuses before it touches the graph. */
  function SlotStatus(g: Graph, n: NodeId, isBacking: bool): Status
    requires n in g.nodes
  {
    var drv, slot := g.nodes[n].drv, SlotEdge(g, n, isBacking);
    if !g.nodes[n].hasDrv then Einval
    else if slot.Some? && slot.value in g.edges && g.edges[slot.value].frozen then Eperm
    else if isBacking && !drv.isFilter && !drv.supportsBacking then Einval
    else if !isBacking && !drv.isFilter && slot.None? then Einval
    else Ok
  }

  function SlotRole(g: Graph, n: NodeId, isBacking: bool): Role
    requires n in g.nodes
  {
    if g.nodes[n].drv.isFilter then ROLE_FILTERED
    else if isBacking then ROLE_COW
    else
      var slot := SlotEdge(g, n, isBacking);
      if slot.Some? && slot.value in g.edges then g.edges[slot.value].role else ROLE_COW
  }

  /** The graph with an edge detached. */
  function Cleared(g: Graph, slot: Option<EdgeId>): Graph {
    if slot.Some? && slot.value in g.edges then Redirect(g, slot.value, None) else g
  }

  /** What bdrv_set_file_or_backing_noperm makes of the lists and edges. */
  function SlotEdges(h: Hooks, g: Graph, e: EdgeId, n: NodeId, child: Option<NodeId>, isBacking: bool): Graph
    requires n in g.nodes
  {
    var g1 := Cleared(g, SlotEdge(g, n, isBacking));
    if child.None? then g1 else Linked(h, g1, e, n, child.value, SlotRole(g, n, isBacking))
  }

  /** Some child edge of root beside `skip` leads to n. */
  ghost predicate OtherWay(g: Graph, root: NodeId, skip: EdgeId, n: NodeId) {
    exists c :: c in Children(g, root) && c != skip && c in g.edges && g.edges[c].bs == Some(n)
  }

  /** The nodes of the subtree of `below` that inherit from root, but are children of root at most through `skip`. */
  ghost function Disowned(g: Graph, root: NodeId, skip: EdgeId, below: NodeId): set<NodeId> {
    set n | n in g.inherits && g.inherits[n] == root && Reach(ArcsOf(g), below, n) && !OtherWay(g, root, skip, n)
  }

  ghost function SlotDisowned(g: Graph, n: NodeId, isBacking: bool): set<NodeId>
    requires n in g.nodes
  {
    var slot := SlotEdge(g, n, isBacking);
    if slot.Some? && slot.value in g.edges && g.edges[slot.value].bs.Some?
      then Disowned(g, n, slot.value, g.edges[slot.value].bs.value)
    else {}
  }

  /** What it makes of inherits_from. */
  ghost function SlotInherits(g: Graph, n: NodeId, child: Option<NodeId>, isBacking: bool): map<NodeId, NodeId>
    requires n in g.nodes
  {
    var left := Orphaned(g.inherits, SlotDisowned(g, n, isBacking));
    if child.Some? && Reach(Lineage(g.inherits), child.value, n) then left[child.value := n] else left
  }

  ghost function SlotSet(h: Hooks, g: Graph, e: EdgeId, n: NodeId, child: Option<NodeId>, isBacking: bool): Graph
    requires n in g.nodes
  {
    SlotEdges(h, g, e, n, child, isBacking).(inherits := SlotInherits(g, n, child, isBacking))
  }

  /** What attaching asserts of the node: its driver knows the permissions of children, and a filter has no
      other child in the second slot. */
  predicate SlotUsable(g: Graph, n: NodeId, isBacking: bool) {
    n in g.nodes && g.nodes[n].drv.hasChildPerm && (g.nodes[n].drv.isFilter ==> SlotEdge(g, n, !isBacking).None?)
  }

  lemma ClearedHasRoom(g: Graph, n: NodeId, isBacking: bool)
    requires WellFormed(g) && SlotUsable(g, n, isBacking) && SlotStatus(g, n, isBacking).Ok?
    ensures RoomFor(Cleared(g, SlotEdge(g, n, isBacking)), n, SlotRole(g, n, isBacking))
  {
    assert SlotsWf(g, n);
  }

  /** Detaching a child of n does not change who reaches n. */
  lemma ClearedReach(g: Graph, e: EdgeId, n: NodeId, child: NodeId)
    requires WellFormed(g) && e in g.edges && g.edges[e].owner == Bds(n) && g.edges[e].bs.Some?
    ensures Reach(ArcsOf(Redirect(g, e, None)), child, n) <==> Reach(ArcsOf(g), child, n)
  {
    var g1 := Redirect(g, e, None);
    RedirectArcs(g, e, None);
    if Reach(ArcsOf(g1), child, n) {
      FewerArcsReach(ArcsOf(g), ArcsOf(g1), child, n);
    }
    if p :| PathFromTo(ArcsOf(g), p, child, n) {
      AttachedHasSlot(g, e);
      RedirectWf(g, e, None);
      RedirectBack(g, e, None);
      RedirectArcs(g1, e, g.edges[e].bs);
      PathWithNewArc(ArcsOf(g1), ArcsOf(g), n, g.edges[e].bs.value, p);
    }
  }

  function SlotGone(g: Graph, n: NodeId, isBacking: bool): set<EdgeId>
    requires n in g.nodes
  {
    var slot := SlotEdge(g, n, isBacking);
    if slot.Some? then {slot.value} else {}
  }

  /** What bdrv_set_file_or_backing_noperm relies on. */
  lemma SlotFacts(g: Graph, n: NodeId, isBacking: bool, child: Option<NodeId>)
    requires WellFormed(g) && n in g.nodes
    ensures var slot := SlotEdge(g, n, isBacking);
            slot.Some? ==> slot.value in g.edges && g.edges[slot.value].owner == Bds(n) && g.edges[slot.value].bs.Some?
    ensures var g1 := Cleared(g, SlotEdge(g, n, isBacking));
            && n in g1.nodes && g1.nodes[n].hasDrv == g.nodes[n].hasDrv && g1.nodes.Keys == g.nodes.Keys
            && (child.Some? ==> (Reach(ArcsOf(g1), child.value, n) <==> Reach(ArcsOf(g), child.value, n)))
            && (SlotUsable(g, n, isBacking) && SlotStatus(g, n, isBacking).Ok? ==>
               RoomFor(g1, n, SlotRole(g, n, isBacking)))
  {
    var slot := SlotEdge(g, n, isBacking);
    assert SlotsWf(g, n);
    if slot.Some? && child.Some? {
      ClearedReach(g, slot.value, n, child.value);
    }
    if SlotUsable(g, n, isBacking) && SlotStatus(g, n, isBacking).Ok? {
      ClearedHasRoom(g, n, isBacking);
    }
  }

  // ---------------------------------------------------------------- inherits_from

  lemma NewEdgeAside(h: Hooks, g: Graph, inherits: map<NodeId, NodeId>, parent: NodeId, child: NodeId, role: Role)
    ensures NewEdge(h, g.(inherits := inherits), parent, child, role) == NewEdge(h, g, parent, child, role)
  {
    var g' := g.(inherits := inherits);
    assert CumulativePerm(g', parent) == CumulativePerm(g, parent);
    assert CumulativeShared(g', parent) == CumulativeShared(g, parent);
  }

  lemma RedirectAside(g: Graph, inherits: map<NodeId, NodeId>, e: EdgeId, to: Option<NodeId>)
    requires e in g.edges
    ensures Redirect(g.(inherits := inherits), e, to) == Redirect(g, e, to).(inherits := inherits)
  {
    assert Redirect(g.(inherits := inherits), e, to).nodes == Redirect(g, e, to).nodes;
  }

  /** The new child, which inherits from n on some way, may inherit from n directly. */
  lemma MayInherit(g: Graph, inherits: map<NodeId, NodeId>, child: NodeId, n: NodeId)
    requires InheritsWf(g) && child in g.nodes && n in g.nodes && child != n && Reach(Lineage(g.inherits), child, n)
    requires forall m | m in inherits :: m in g.inherits && inherits[m] == g.inherits[m]
    ensures !Reach(Lineage(inherits), n, child)
  {
    var a := Lineage(g.inherits);
    ReachCases(a, child, n);
    if Reach(Lineage(inherits), n, child) {
      FewerArcsReach(a, Lineage(inherits), n, child);
      BelowReach(a, child, n, child);
      assert false;
    }
  }

  /** Following inherits_from one step further. */
  lemma LineageNext(inherits: map<NodeId, NodeId>, n: NodeId, parent: NodeId)
    requires n != parent
    ensures Reach(Lineage(inherits), n, parent) <==> n in inherits && Reach(Lineage(inherits), inherits[n], parent)
  {
    ReachCases(Lineage(inherits), n, parent);
    assert n in inherits ==> Arc(Lineage(inherits), n, inherits[n]);
  }

  // ---------------------------------------------------------------- bdrv_unset_inherits_from

  /** `skip` is the child edge of root that is about to go, and e is that edge or one below it. */
  ghost predicate Unsetting(g: Graph, root: NodeId, skip: EdgeId, e: EdgeId) {
    && root in g.nodes && skip in g.nodes[root].children && skip in g.edges && g.edges[skip].bs.Some?
    && e in g.edges && g.edges[e].bs.Some? && g.edges[e].bs.value in g.nodes
    && (e == skip || (g.edges[e].owner.Bds? && Reach(ArcsOf(g), g.edges[skip].bs.value, g.edges[e].owner.node)))
  }

  /** The edge that the loop over the children of root leaves out does not matter below the first one. */
  lemma SameOtherWay(g: Graph, root: NodeId, skip: EdgeId, e: EdgeId)
    requires WellFormed(g) && AcyclicGraph(g) && Unsetting(g, root, skip, e)
    ensures OtherWay(g, root, e, g.edges[e].bs.value) <==> OtherWay(g, root, skip, g.edges[e].bs.value)
  {
    if e != skip {
      var a, x, o, y := ArcsOf(g), g.edges[skip].bs.value, g.edges[e].owner.node, g.edges[e].bs.value;
      EdgeIsArc(g, skip);
      EdgeIsArc(g, e);
      NoWayBack(a, root, x);
      assert o != root && e !in g.nodes[root].children;
      ReachArc(a, o, y);
      NoWayBack(a, o, y);
      assert x != y;
    }
  }

  lemma UnsettingBelow(g: Graph, root: NodeId, skip: EdgeId, e: EdgeId, c: EdgeId)
    requires WellFormed(g) && AcyclicGraph(g) && Unsetting(g, root, skip, e)
    requires c in g.nodes[g.edges[e].bs.value].children
    ensures Unsetting(g, root, skip, c)
    ensures Descendants(ArcsOf(g), g.edges[c].bs.value) < Descendants(ArcsOf(g), g.edges[e].bs.value)
  {
    var a, y := ArcsOf(g), g.edges[e].bs.value;
    EdgeDescends(g, y, c);
    if e == skip {
      ReachSelf(a, y);
    } else {
      EdgeIsArc(g, e);
      ReachArc(a, g.edges[e].owner.node, y);
      ReachTrans(a, g.edges[skip].bs.value, g.edges[e].owner.node, y);
    }
  }

  /** What is cleared once y itself and the subtrees of its child edges `done` are dealt with. */
  ghost function DisownedBy(g: Graph, root: NodeId, skip: EdgeId, y: NodeId, done: set<EdgeId>): set<NodeId> {
    set n | n in g.inherits && g.inherits[n] == root && !OtherWay(g, root, skip, n)
            && (n == y || exists c ::
                  c in done && c in g.edges && g.edges[c].bs.Some? && Reach(ArcsOf(g), g.edges[c].bs.value, n))
  }

  lemma DisownedAll(g: Graph, root: NodeId, skip: EdgeId, y: NodeId)
    requires WellFormed(g) && y in g.nodes
    ensures DisownedBy(g, root, skip, y, g.nodes[y].children) == Disowned(g, root, skip, y)
  {
    forall n | n in g.inherits
      ensures Reach(ArcsOf(g), y, n) <==>
              n == y || exists c ::
                && c in g.nodes[y].children && c in g.edges && g.edges[c].bs.Some?
                && Reach(ArcsOf(g), g.edges[c].bs.value, n)
    {
      ReachCases(ArcsOf(g), y, n);
      BelowByEdge(g, y, n);
    }
  }

  lemma DisownedMore(g: Graph, root: NodeId, skip: EdgeId, y: NodeId, done: set<EdgeId>, c: EdgeId)
    requires c in g.edges && g.edges[c].bs.Some?
    ensures var left := Orphaned(g.inherits, DisownedBy(g, root, skip, y, done));
            Orphaned(left, Disowned(g.(inherits := left), root, skip, g.edges[c].bs.value))
            == Orphaned(g.inherits, DisownedBy(g, root, skip, y, done + {c}))
  {
    var left := Orphaned(g.inherits, DisownedBy(g, root, skip, y, done));
    var g' := g.(inherits := left);
    InheritsAside(g, left);
    forall n ensures OtherWay(g', root, skip, n) <==> OtherWay(g, root, skip, n) {
    }
    assert DisownedBy(g, root, skip, y, done + {c}) == DisownedBy(g, root, skip, y, done)
           + Disowned(g', root, skip, g.edges[c].bs.value);
  }
}
