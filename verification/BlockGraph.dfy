/**
 The block graph: nodes (BlockDriverState) and the edges between them (BdrvChild).

 Nodes and edges are named by numbers.  The list of children and the list of parents of a
 node are sets here; code that walks such a list takes the elements in an arbitrary order.
 */
module BlockGraph {
  import opened Basics
  import opened Reachability

  type NodeId = nat
  type EdgeId = nat

  datatype Perm = ConsistentRead | Write | WriteUnchanged | Resize

  /** A BLK_PERM_* mask. */
  type Perms = set<Perm>

  const PERM_ALL: Perms := {ConsistentRead, Write, WriteUnchanged, Resize}

  /** BDRV_CHILD_* flags. */
  datatype Role = Role(data: bool, metadata: bool, filtered: bool, cow: bool, primary: bool)

  const ROLE_COW := Role(false, false, false, true, false)
  const ROLE_FILTERED := Role(false, false, true, false, true)

  datatype Driver = Driver(isFilter: bool, supportsBacking: bool, filteredChildIsBacking: bool, hasChildPerm: bool)

  /** Who holds the edge: another node, a block job or a block backend. */
  datatype Owner = Bds(node: NodeId) | Job(job: nat) | Backend(blk: nat)

  /** `stay` is klass->stay_at_node. */
  datatype Edge = Edge(owner: Owner, role: Role, bs: Option<NodeId>, perm: Perms, shared: Perms,
                       frozen: bool, stay: bool)

  /** `hasDrv` is false once bs->drv was cleared.  Reference counts are kept beside the graph. */
  datatype Node = Node(drv: Driver, hasDrv: bool,
                       children: set<EdgeId>, parents: set<EdgeId>,
                       backing: Option<EdgeId>, file: Option<EdgeId>,
                       forceShare: bool, neverFreeze: bool)

  /** `inherits` is bs->inherits_from, for the nodes where it is not NULL. */
  datatype Graph = Graph(nodes: map<NodeId, Node>, edges: map<EdgeId, Edge>, inherits: map<NodeId, NodeId>)

  /** Which of bs->backing and bs->file an attached child occupies. */
  datatype Slot = NoSlot | BackingSlot | FileSlot

  function SlotOf(drv: Driver, role: Role): Slot {
    if drv.isFilter || role.filtered then
      if !role.primary then NoSlot else if drv.filteredChildIsBacking then BackingSlot else FileSlot
    else if role.cow then BackingSlot
    else if role.primary then FileSlot
    else NoSlot
  }

  /** The one primary child of a filter, or of a node that behaves like one, which excludes any other
      backing or file child. */
  predicate IsFiltered(drv: Driver, role: Role) {
    (drv.isFilter || role.filtered) && role.primary
  }

  /** What bdrv_child_cb_attach asserts of the role of a child, and bdrv_child_perm of the driver.  A driver
      that has a filtered child without being a filter (block/raw-format.c) has no backing files. */
  predicate Fits(drv: Driver, role: Role) {
    && drv.hasChildPerm
    && (if drv.isFilter || role.filtered then !role.cow && (role.primary <==> role.filtered)
        else role.cow ==> drv.supportsBacking && !role.primary)
    && (role.filtered && !drv.isFilter ==> !drv.supportsBacking && !drv.filteredChildIsBacking)
  }

  function Children(g: Graph, n: NodeId): set<EdgeId> {
    if n in g.nodes then g.nodes[n].children else {}
  }

  function Parents(g: Graph, n: NodeId): set<EdgeId> {
    if n in g.nodes then g.nodes[n].parents else {}
  }

  /** The nodes below n by one edge. */
  function ChildNodes(g: Graph, n: NodeId): set<NodeId> {
    set e | e in Children(g, n) && e in g.edges && g.edges[e].bs.Some? :: g.edges[e].bs.value
  }

  /** The parent-child relation of the nodes. */
  function ArcsOf(g: Graph): Arcs {
    map n | n in g.nodes :: ChildNodes(g, n)
  }

  // ---------------------------------------------------------------- consistency of the lists

  ghost predicate ListsWf(g: Graph) {
    && (forall n, e | n in g.nodes && e in g.nodes[n].children ::
          e in g.edges && g.edges[e].owner == Bds(n) && g.edges[e].bs.Some?)
    && (forall n, e | n in g.nodes && e in g.nodes[n].parents :: e in g.edges && g.edges[e].bs == Some(n))
  }

  /** An attached edge is in the list of parents of its target and, if a node owns it, in the
      list of children of that node. */
  ghost predicate EdgeWf(g: Graph, e: EdgeId)
    requires e in g.edges
  {
    var edge := g.edges[e];
    edge.bs.Some? ==>
      && edge.bs.value in g.nodes && e in g.nodes[edge.bs.value].parents
      && (edge.owner.Bds? ==> edge.owner.node in g.nodes && e in g.nodes[edge.owner.node].children)
  }

  /** bs->backing and bs->file are the attached children with that slot. */
  ghost predicate SlotsWf(g: Graph, n: NodeId)
    requires n in g.nodes && ListsWf(g)
  {
    var node := g.nodes[n];
    && (node.backing.Some? ==> node.backing.value in node.children)
    && (node.file.Some? ==> node.file.value in node.children)
    && forall e | e in node.children ::
         && Fits(node.drv, g.edges[e].role)
         && (SlotOf(node.drv, g.edges[e].role).BackingSlot? <==> node.backing == Some(e))
         && (SlotOf(node.drv, g.edges[e].role).FileSlot? <==> node.file == Some(e))
         && (IsFiltered(node.drv, g.edges[e].role) ==> node.backing in {None, Some(e)} && node.file in {None, Some(e)})
  }

  ghost predicate WellFormed(g: Graph) {
    && ListsWf(g)
    && (forall e {:trigger EdgeWf(g, e)} | e in g.edges :: EdgeWf(g, e))
    && (forall n {:trigger SlotsWf(g, n)} | n in g.nodes :: SlotsWf(g, n))
  }

  ghost predicate AcyclicGraph(g: Graph) {
    Acyclic(ArcsOf(g))
  }

  /** The links of inherits_from. */
  function Lineage(inherits: map<NodeId, NodeId>): Arcs {
    map n | n in inherits :: {inherits[n]}
  }

  /** Following inherits_from ends. */
  ghost predicate InheritsWf(g: Graph) {
    && (forall n | n in g.inherits :: n in g.nodes && g.inherits[n] in g.nodes)
    && Acyclic(Lineage(g.inherits))
  }

  ghost predicate Sane(g: Graph) {
    WellFormed(g) && AcyclicGraph(g) && InheritsWf(g)
  }

  lemma SameInherits(g: Graph, g': Graph)
    requires InheritsWf(g) && g'.inherits == g.inherits && g'.nodes.Keys == g.nodes.Keys
    ensures InheritsWf(g')
  {
  }

  /** The lists and the arcs do not depend on inherits_from. */
  lemma InheritsAside(g: Graph, inherits: map<NodeId, NodeId>)
    ensures var g' := g.(inherits := inherits); ArcsOf(g') == ArcsOf(g) && (WellFormed(g) ==> WellFormed(g'))
  {
    var g' := g.(inherits := inherits);
    assert forall n | n in g.nodes :: ChildNodes(g', n) == ChildNodes(g, n);
    if WellFormed(g) {
      assert forall e | e in g.edges :: EdgeWf(g, e);
      forall n | n in g'.nodes ensures SlotsWf(g', n) {
        assert SlotsWf(g, n);
      }
      forall e | e in g'.edges ensures EdgeWf(g', e) {
        assert EdgeWf(g, e);
      }
    }
  }

  /** What no operation on the graph changes of a node. */
  predicate SameNode(n: Node, n': Node) {
    n' == n.(children := n'.children, parents := n'.parents, backing := n'.backing, file := n'.file)
  }

  ghost predicate SameNodes(g: Graph, g': Graph) {
    g'.nodes.Keys == g.nodes.Keys && forall n | n in g.nodes :: SameNode(g.nodes[n], g'.nodes[n])
  }

  /** The nodes of g are still there, perhaps beside new ones. */
  ghost predicate NodesKept(g: Graph, g': Graph) {
    forall n | n in g.nodes :: n in g'.nodes && SameNode(g.nodes[n], g'.nodes[n])
  }

  /** True; mentioning a graph is what makes the verifier use a fact that is stated for mentioned graphs. */
  ghost predicate Mentioned(g: Graph) {
    true
  }

  lemma ArcsClosed(g: Graph)
    requires WellFormed(g)
    ensures Closed(ArcsOf(g))
  {
    forall x, y | Arc(ArcsOf(g), x, y) ensures y in ArcsOf(g) {
      var e :| e in Children(g, x) && e in g.edges && g.edges[e].bs == Some(y);
      assert EdgeWf(g, e);
    }
  }

  lemma EdgeIsArc(g: Graph, e: EdgeId)
    requires WellFormed(g) && e in g.edges && g.edges[e].owner.Bds? && g.edges[e].bs.Some?
    ensures Arc(ArcsOf(g), g.edges[e].owner.node, g.edges[e].bs.value)
  {
    assert EdgeWf(g, e);
    assert e in Children(g, g.edges[e].owner.node);
  }

  lemma ArcIsEdge(g: Graph, x: NodeId, y: NodeId) returns (e: EdgeId)
    requires WellFormed(g) && Arc(ArcsOf(g), x, y)
    ensures x in g.nodes && e in g.nodes[x].children && e in g.edges
    ensures g.edges[e].owner == Bds(x) && g.edges[e].bs == Some(y)
  {
    e :| e in Children(g, x) && e in g.edges && g.edges[e].bs == Some(y);
  }

  lemma EdgeDescends(g: Graph, bs: NodeId, c: EdgeId)
    requires WellFormed(g) && AcyclicGraph(g) && bs in g.nodes && c in g.nodes[bs].children
    ensures g.edges[c].bs.Some? && g.edges[c].bs.value in g.nodes
    ensures Descendants(ArcsOf(g), g.edges[c].bs.value) < Descendants(ArcsOf(g), bs)
  {
    assert EdgeWf(g, c);
    EdgeIsArc(g, c);
    DescendantsShrink(ArcsOf(g), bs, g.edges[c].bs.value);
  }

  /** To be below bs is to be reachable from the target of one of its child edges. */
  lemma BelowByEdge(g: Graph, bs: NodeId, child: NodeId)
    requires WellFormed(g) && bs in g.nodes
    ensures Below(ArcsOf(g), bs, child) <==>
            exists c :: c in g.nodes[bs].children && Reach(ArcsOf(g), g.edges[c].bs.value, child)
  {
    if Below(ArcsOf(g), bs, child) {
      var z :| Arc(ArcsOf(g), bs, z) && Reach(ArcsOf(g), z, child);
      var e := ArcIsEdge(g, bs, z);
    }
    if c :| c in g.nodes[bs].children && Reach(ArcsOf(g), g.edges[c].bs.value, child) {
      EdgeIsArc(g, c);
    }
  }
}
