/**
 bs->inherits_from: what replacing the backing or the file child of a node does to the nodes that take
 their options from it.
 */
module InheritedOptions {
  import opened Basics
  import opened Reachability
  import opened BlockGraph
  import opened Permissions
  import opened GraphEdits
  import opened Transactions
  import opened GraphChanges

  ghost predicate SameButInherits(t0: Txn, t: Txn) {
    Open(t0) && Open(t) && t.Start() == t0.Start() && RemovedIn(t.log) == RemovedIn(t0.log)
  }

  /** y and its child edges beside `todo` are dealt with. */
  ghost predicate Clearing(t0: Txn, t: Txn, root: NodeId, skip: EdgeId, e: EdgeId, y: NodeId, todo: set<EdgeId>) {
    && SameButInherits(t0, t)
    && Unsetting(t0.g, root, skip, e) && t0.g.edges[e].bs == Some(y) && todo <= t0.g.nodes[y].children
    && t.g == t0.g.(inherits := Orphaned(t0.g.inherits, DisownedBy(t0.g, root, skip, y, t0.g.nodes[y].children - todo)))
  }

  lemma ClearingStart(t0: Txn, t: Txn, root: NodeId, skip: EdgeId, e: EdgeId)
    requires SameButInherits(t0, t) && Unsetting(t0.g, root, skip, e)
    requires var y := t0.g.edges[e].bs.value;
             if InheritsOf(t0.g.inherits, y) == Some(root) && !OtherWay(t0.g, root, skip, y)
               then t.g == SetInherits(t0.g, y, None)
             else t.g == t0.g
    ensures var y := t0.g.edges[e].bs.value; Clearing(t0, t, root, skip, e, y, t0.g.nodes[y].children)
  {
    var y := t0.g.edges[e].bs.value;
    assert t0.g.nodes[y].children - t0.g.nodes[y].children == {};
    DisownedOwn(t0.g, root, skip, y);
  }

  lemma DisownedOwn(g: Graph, root: NodeId, skip: EdgeId, y: NodeId)
    ensures var own := Orphaned(g.inherits, DisownedBy(g, root, skip, y, {}));
            if InheritsOf(g.inherits, y) == Some(root) && !OtherWay(g, root, skip, y)
              then g.(inherits := own) == SetInherits(g, y, None)
            else own == g.inherits
  {
  }

  lemma ClearingAt(t0: Txn, t: Txn, root: NodeId, skip: EdgeId, e: EdgeId, y: NodeId, todo: set<EdgeId>, c: EdgeId)
    requires Clearing(t0, t, root, skip, e, y, todo) && c in todo
    ensures Unsetting(t.g, root, skip, c)
    ensures Descendants(ArcsOf(t.g), t.g.edges[c].bs.value) < Descendants(ArcsOf(t0.g), y)
  {
    UnsettingBelow(t0.g, root, skip, e, c);
    InheritsAside(t0.g, t.g.inherits);
  }

  lemma ClearingNext(t0: Txn, t: Txn, root: NodeId, skip: EdgeId, e: EdgeId, y: NodeId, todo: set<EdgeId>, c: EdgeId)
    requires SameButInherits(t0, t) && Unsetting(t0.g, root, skip, e) && t0.g.edges[e].bs == Some(y)
    requires todo <= t0.g.nodes[y].children && c in todo
    requires c in t0.g.edges && t0.g.edges[c].bs.Some?
    requires var g1 := t0.g.(inherits := Orphaned(t0.g.inherits,
             DisownedBy(t0.g, root, skip, y, t0.g.nodes[y].children - todo)));
             t.g == g1.(inherits := Orphaned(g1.inherits, Disowned(g1, root, skip, t0.g.edges[c].bs.value)))
    ensures Clearing(t0, t, root, skip, e, y, todo - {c})
  {
    DisownedMore(t0.g, root, skip, y, t0.g.nodes[y].children - todo, c);
    assert t0.g.nodes[y].children - (todo - {c}) == t0.g.nodes[y].children - todo + {c};
  }

  lemma ClearingDone(t0: Txn, t: Txn, root: NodeId, skip: EdgeId, e: EdgeId, y: NodeId)
    requires Clearing(t0, t, root, skip, e, y, {})
    ensures t.g == t0.g.(inherits := Orphaned(t0.g.inherits, Disowned(t0.g, root, skip, y)))
  {
    assert t0.g.nodes[y].children - {} == t0.g.nodes[y].children;
    DisownedAll(t0.g, root, skip, y);
  }

  /** g is g0 without the child in the slot. */
  ghost predicate SlotTaken(g0: Graph, n: NodeId, isBacking: bool, g: Graph)
    requires n in g0.nodes
  {
    g == Cleared(g0, SlotEdge(g0, n, isBacking)).(inherits := Orphaned(g0.inherits, SlotDisowned(g0, n, isBacking)))
  }

  lemma SlotTakenFacts(h: Hooks, g0: Graph, e: EdgeId, n: NodeId, child: NodeId, isBacking: bool, g: Graph)
    requires WellFormed(g0) && n in g0.nodes && SlotTaken(g0, n, isBacking, g)
    requires SlotStatus(g0, n, isBacking).Ok? && SlotUsable(g0, n, isBacking)
    ensures g.nodes.Keys == g0.nodes.Keys && g.nodes[n].hasDrv && RoomFor(g, n, SlotRole(g0, n, isBacking))
    ensures Reach(ArcsOf(g), child, n) <==> Reach(ArcsOf(g0), child, n)
    ensures Linked(h, g, e, n, child, SlotRole(g0, n, isBacking))
            == SlotEdges(h, g0, e, n, Some(child), isBacking).(inherits := g.inherits)
  {
    var g1 := Cleared(g0, SlotEdge(g0, n, isBacking));
    SlotFacts(g0, n, isBacking, Some(child));
    InheritsAside(g1, g.inherits);
    NewEdgeAside(h, g1, g.inherits, n, child, SlotRole(g0, n, isBacking));
    RedirectAside(AddEdge(g1, e, NewEdge(h, g1, n, child, SlotRole(g0, n, isBacking))), g.inherits, e, Some(child));
  }

  lemma GivenMayInherit(g0: Graph, n: NodeId, child: NodeId, isBacking: bool, g: Graph)
    requires InheritsWf(g0) && n in g0.nodes && child in g0.nodes && g.nodes.Keys == g0.nodes.Keys
    requires g.inherits == Orphaned(g0.inherits, SlotDisowned(g0, n, isBacking))
    requires Reach(Lineage(g0.inherits), child, n) && !Reach(ArcsOf(g0), child, n)
    ensures CanInherit(g, child, Some(n))
  {
    ReachSelf(ArcsOf(g0), n);
    MayInherit(g0, g.inherits, child, n);
  }

  /** All that is left to do is to attach the new child and, if it inherits from n on some way, to let it do
      so directly. */
  ghost predicate SlotReady(h: Hooks, g0: Graph, e: EdgeId, n: NodeId, child: NodeId, role: Role, isBacking: bool,
                            update: bool, g: Graph) {
    && n in g0.nodes && n in g.nodes && child in g.nodes && g.nodes[n].hasDrv && RoomFor(g, n, role)
    && (Reach(ArcsOf(g), child, n) <==> Reach(ArcsOf(g0), child, n))
    && var g2, g3 := Linked(h, g, e, n, child, role), SlotSet(h, g0, e, n, Some(child), isBacking);
       if update then
         !Reach(ArcsOf(g0), child, n) ==> CanInherit(g2, child, Some(n)) && SetInherits(g2, child, Some(n)) == g3
       else g2 == g3
  }

  lemma SlotIsReady(h: Hooks, g0: Graph, e: EdgeId, n: NodeId, child: NodeId, isBacking: bool, g: Graph)
    requires Sane(g0) && n in g0.nodes && SlotTaken(g0, n, isBacking, g) && child in g0.nodes
    requires SlotStatus(g0, n, isBacking).Ok? && SlotUsable(g0, n, isBacking)
    ensures SlotReady(h, g0, e, n, child, SlotRole(g0, n, isBacking), isBacking, Reach(Lineage(g0.inherits), child, n),
            g)
  {
    SlotTakenFacts(h, g0, e, n, child, isBacking, g);
    if Reach(Lineage(g0.inherits), child, n) && !Reach(ArcsOf(g0), child, n) {
      GivenMayInherit(g0, n, child, isBacking, Linked(h, g, e, n, child, SlotRole(g0, n, isBacking)));
    }
  }

  lemma UnsettingSlot(g: Graph, n: NodeId, e: EdgeId)
    requires WellFormed(g) && e in g.edges && g.edges[e].owner == Bds(n) && g.edges[e].bs.Some?
    ensures Unsetting(g, n, e, e)
  {
    assert EdgeWf(g, e);
  }
}
