/**
 What freezing a backing chain protects it from, operation by operation: a chain that is frozen down to a
 base stays as it is; a chain that is frozen down to its end can still grow there.
 */
module FrozenChains {
  import opened Basics
  import opened Reachability
  import opened BlockGraph
  import opened Permissions
  import opened GraphEdits
  import opened Transactions
  import opened GraphChanges
  import opened GraphResults
  import opened BackingChains
  import opened NewNodes

  // ---------------------------------------------------------------- frozen down to a base

  lemma {:induction false} SameLinks(g: Graph, s: set<EdgeId>, f: bool, n: NodeId, base: Option<NodeId>)
    requires SoundGraph(g) && SoundGraph(WithFrozen(g, s, f)) && n in g.nodes
    ensures Links(WithFrozen(g, s, f), n, base) == Links(g, n, base)
    ensures HasBase(WithFrozen(g, s, f), n, base) == HasBase(g, n, base)
    decreases Descendants(ArcsOf(g), n)
  {
    if base != Some(n) && ChainEdge(g, n).Some? {
      ChainDescends(g, n);
      SameLinks(g, s, f, g.edges[ChainEdge(g, n).value].bs.value, base);
    }
  }

  lemma {:induction false} LinksAreEdges(g: Graph, n: NodeId, base: Option<NodeId>)
    requires SoundGraph(g) && n in g.nodes
    ensures forall e | e in Links(g, n, base) :: e in g.edges
    decreases Descendants(ArcsOf(g), n)
  {
    if base != Some(n) && ChainEdge(g, n).Some? {
      ChainDescends(g, n);
      LinksAreEdges(g, g.edges[ChainEdge(g, n).value].bs.value, base);
    }
  }

  /** Up to their masks, the links are as they were in g. */
  ghost predicate LinksAsIn(g: Graph, g': Graph, links: seq<EdgeId>) {
    forall e | e in links ::
      && e in g.edges && e in g'.edges
      && g'.edges[e] == WithMasks(g.edges[e], (g'.edges[e].perm, g'.edges[e].shared))
  }

  /** Freezing a chain down to a base, any steps that leave its links alone, and unfreezing it: the links at
      the end are those of the start, all still frozen when they are unfrozen, and then as they were before. */
  lemma UnfreezeRestores(g: Graph, gs: seq<Graph>, n: NodeId, base: NodeId)
    requires SoundGraph(g) && n in g.nodes && HasBase(g, n, Some(base))
    requires forall e | e in Links(g, n, Some(base)) :: CanFreeze(g, e)
    requires Holding(gs, Links(g, n, Some(base))) && gs[0] == WithFrozen(g, LinkSet(Links(g, n, Some(base))), true)
    ensures var links, last := Links(g, n, Some(base)), gs[|gs| - 1];
            && SoundGraph(last) && n in last.nodes && HasBase(last, n, Some(base))
            && Links(last, n, Some(base)) == links && AllFrozen(last, links)
            && LinksAsIn(g, WithFrozen(last, LinkSet(links), false), links)
  {
    var links, last := Links(g, n, Some(base)), gs[|gs| - 1];
    assert SoundGraph(gs[0]);
    SameLinks(g, LinkSet(links), true, n, Some(base));
    LinksAreEdges(g, n, Some(base));
    assert forall e | e in links :: e in LinkSet(links);
    ChainKeptOverRun(gs, n, base, links, |gs| - 1);
    FrozenBack(g, links, last);
  }

  lemma FrozenBack(g: Graph, links: seq<EdgeId>, last: Graph)
    requires forall e | e in links :: e in g.edges && !g.edges[e].frozen
    requires LinksHeld(WithFrozen(g, LinkSet(links), true), last, links)
    ensures LinksAsIn(g, WithFrozen(last, LinkSet(links), false), links)
  {
    assert forall e | e in links :: e in LinkSet(links);
  }

  // ---------------------------------------------------------------- frozen down to the end

  /** A child of that role is the next link of the chain. */
  predicate IsLink(node: Node, role: Role) {
    node.hasDrv && (SlotOf(node.drv, role).BackingSlot? || (node.drv.isFilter && SlotOf(node.drv, role).FileSlot?))
  }

  lemma LinkThere(g: Graph, n: NodeId, e: EdgeId)
    requires WellFormed(g) && n in g.nodes && e in g.edges && g.edges[e].owner == Bds(n) && g.edges[e].bs.Some?
    ensures IsLink(g.nodes[n], g.edges[e].role) ==> ChainEdge(g, n) == Some(e)
  {
    assert EdgeWf(g, e) && SlotsWf(g, n);
  }

  /** Every attached child edge of n in g' was one in g, with the same role. */
  ghost predicate NoNewChild(g: Graph, g': Graph, n: NodeId) {
    forall e | e in g'.edges && g'.edges[e].owner == Bds(n) && g'.edges[e].bs.Some? ::
      e in g.edges && g.edges[e].owner == Bds(n) && g.edges[e].bs.Some? && g.edges[e].role == g'.edges[e].role
  }

  lemma StillNoLink(g: Graph, g': Graph, n: NodeId)
    requires WellFormed(g) && WellFormed(g') && NodesKept(g, g') && n in g.nodes && ChainEdge(g, n).None?
    requires NoNewChild(g, g', n)
    ensures ChainEdge(g', n).None?
  {
    assert SameNode(g.nodes[n], g'.nodes[n]);
    if ChainEdge(g', n).Some? {
      ChainEdgeIsChild(g', n);
      var e := ChainEdge(g', n).value;
      assert SlotsWf(g', n);
      LinkThere(g, n, e);
      assert false;
    }
  }

  lemma {:induction false} LastHasNoLink(g: Graph, n: NodeId)
    requires SoundGraph(g) && n in g.nodes
    ensures Last(g, n) in g.nodes && ChainEdge(g, Last(g, n)).None?
    decreases Descendants(ArcsOf(g), n)
  {
    if ChainEdge(g, n).Some? {
      ChainDescends(g, n);
      LastHasNoLink(g, g.edges[ChainEdge(g, n).value].bs.value);
    }
  }

  /** A link of the last node of the old chain is a link of the new one. */
  lemma {:induction false} GrownLink(g: Graph, g': Graph, n: NodeId)
    requires SoundGraph(g) && SoundGraph(g') && n in g.nodes
    requires LinksHeld(g, g', Links(g, n, None)) && AllFrozen(g, Links(g, n, None))
    requires Last(g, n) in g'.nodes && ChainEdge(g', Last(g, n)).Some?
    ensures ChainEdge(g', Last(g, n)).value in Links(g', n, None)
    decreases Descendants(ArcsOf(g), n)
  {
    if ChainEdge(g, n).Some? {
      ChainDescends(g, n);
      var e := ChainEdge(g, n).value;
      var rest := Links(g, g.edges[e].bs.value, None);
      assert e in [e] + rest && forall x | x in rest :: x in [e] + rest;
      LinkKept(g, g', n, [e] + rest);
      GrownLink(g, g', g.edges[e].bs.value);
    }
  }

  // ---------------------------------------------------------------- operations

  datatype Operation =
    | Attaching(parent: NodeId, child: NodeId, role: Role)      // bdrv_attach_child
    | AttachingRoot(edge: Edge, node: NodeId)                   // bdrv_root_attach_child
    | SettingBacking(top: NodeId, backing: Option<NodeId>)      // bdrv_set_backing_hd
    | Appending(bsNew: NodeId, bsTop: NodeId)                   // bdrv_append
    | Replacing(from: NodeId, to: NodeId)                       // bdrv_replace_node
    | DroppingFilter(filter: NodeId, under: NodeId, link: EdgeId)   // bdrv_drop_filter
    | Creating(created: NodeId, state: Node, source: Option<NodeId>) // bdrv_new
    | Freezing(start: NodeId, base: Option<NodeId>)             // bdrv_freeze_backing_chain
    | Unfreezing(start: NodeId, base: Option<NodeId>)           // bdrv_unfreeze_backing_chain

  ghost predicate HasChain(g: Graph, n: NodeId, base: Option<NodeId>) {
    SoundGraph(g) && n in g.nodes && HasBase(g, n, base)
  }

  /** The operation succeeds and leads from g to g'. */
  ghost predicate Did(h: Hooks, op: Operation, g: Graph, g': Graph) {
    match op
    case Attaching(parent, child, role) => parent in g.nodes && exists e ::
      AttachOutcome(h, g, e, parent, child, role, true, true, g')
    case AttachingRoot(edge, node) => !edge.owner.Bds? && exists e :: RootOutcome(h, g, e, edge, node, true, true, g')
    case SettingBacking(top, backing) => top in g.nodes && exists e ::
      SetBackingOutcome(h, g, e, top, backing, true, true, g')
    case Appending(bsNew, bsTop) =>
      bsNew in g.nodes && g.nodes[bsNew].hasDrv && exists e :: AppendOutcome(h, g, e, bsNew, bsTop, true, true, g')
    case Replacing(from, to) => exists autoSkip :: ReplaceOutcome(h, g, from, to, autoSkip, true, g')
    case DroppingFilter(filter, under, link) => DropOutcome(h, g, filter, under, link, true, g')
    case Creating(n, node, source) => n !in g.nodes && NoEdges(node) && g' == WithNode(g, n, node, source)
    case Freezing(n, base) =>
      && HasChain(g, n, base) && (forall e | e in Links(g, n, base) :: CanFreeze(g, e))
      && g' == WithFrozen(g, LinkSet(Links(g, n, base)), true)
    case Unfreezing(n, base) =>
      HasChain(g, n, base) && AllFrozen(g, Links(g, n, base)) && g' == WithFrozen(g, LinkSet(Links(g, n, base)), false)
  }

  /** What a caller can tell from the arguments: the operation gives n no link. */
  predicate Spares(g: Graph, op: Operation, n: NodeId) {
    match op
    case Attaching(parent, _, role) => parent != n || !(n in g.nodes && IsLink(g.nodes[n], role))
    case AttachingRoot(_, _) => true
    case SettingBacking(top, backing) => top != n || backing.None?
    case Appending(bsNew, _) => bsNew != n
    case Replacing(_, _) => true
    case DroppingFilter(_, _, _) => true
    case Creating(_, _, _) => true
    case Freezing(_, _) => true
    case Unfreezing(_, _) => true
  }

  /** The operation unfreezes one of these links. */
  ghost predicate Thaws(g: Graph, op: Operation, links: seq<EdgeId>) {
    && op.Unfreezing? && HasChain(g, op.start, op.base)
    && exists e :: e in links && e in Links(g, op.start, op.base)
  }

  /** All edges beside `e` were there before, with the same owner and role, and none was detached. */
  ghost predicate OldBeside(g: Graph, g': Graph, e: Option<EdgeId>) {
    forall x | x in g'.edges && e != Some(x) && g'.edges[x].bs.Some? ::
      x in g.edges && g.edges[x].bs.Some? && g.edges[x].owner == g'.edges[x].owner
        && g.edges[x].role == g'.edges[x].role
  }

  /** The new edge e belongs to n, has that role and is not frozen. */
  ghost predicate NewLinkIs(g': Graph, e: EdgeId, n: NodeId, role: Role) {
    e in g'.edges && g'.edges[e].owner == Bds(n) && g'.edges[e].role == role && g'.edges[e].bs.Some?
      && !g'.edges[e].frozen
  }

  lemma HarmlessKeeps(g: Graph, g': Graph)
    requires Harmless(g, g')
    ensures FrozenKept(g, g')
  {
    assert Mentioned(g');
  }

  lemma AttachingAdds(h: Hooks, g: Graph, e: EdgeId, parent: NodeId, child: NodeId, role: Role, g': Graph)
    requires AttachOutcome(h, g, e, parent, child, role, true, true, g')
    ensures OldBeside(g, g', Some(e)) && NewLinkIs(g', e, parent, role)
  {
    assert Mentioned(g');
  }

  lemma AttachingRootAdds(h: Hooks, g: Graph, e: EdgeId, edge: Edge, node: NodeId, g': Graph)
    requires RootOutcome(h, g, e, edge, node, true, true, g')
    ensures OldBeside(g, g', Some(e)) && e in g'.edges && g'.edges[e].owner == edge.owner
  {
    assert Mentioned(g');
  }

  lemma BackingAdds(g: Graph, e: EdgeId, n: NodeId, backing: Option<NodeId>, g': Graph)
    requires n in g.nodes && BackingIs(g, e, n, backing, g')
    ensures OldBeside(g, g', if backing.Some? then Some(e) else None)
    ensures backing.Some? ==> NewLinkIs(g', e, n, SlotRole(g, n, true))
  {
  }

  lemma SettingBackingAdds(h: Hooks, g: Graph, e: EdgeId, n: NodeId, backing: Option<NodeId>, g': Graph)
    requires WellFormed(g) && n in g.nodes && SetBackingOutcome(h, g, e, n, backing, true, true, g')
    ensures OldBeside(g, g', if backing.Some? then Some(e) else None)
    ensures backing.Some? ==> NewLinkIs(g', e, n, SlotRole(g, n, true)) && IsLink(g.nodes[n], SlotRole(g, n, true))
  {
    SetBackingMeans(h, g, e, n, backing, true, g');
    BackingAdds(g, e, n, backing, g');
  }

  /** The edges are the same but for their masks and where they lead to. */
  ghost predicate SameEdges(g: Graph, g': Graph) {
    g'.edges.Keys == g.edges.Keys && forall x | x in g.edges ::
      && g'.edges[x].owner == g.edges[x].owner && g'.edges[x].role == g.edges[x].role
         && g'.edges[x].frozen == g.edges[x].frozen
      && (g'.edges[x].bs.Some? <==> g.edges[x].bs.Some?)
  }

  ghost predicate ParentsAttached(g: Graph, n: NodeId) {
    forall x | x in Parents(g, n) && x in g.edges :: g.edges[x].bs.Some?
  }

  lemma RewiredSame(g: Graph, g1: Graph, from: NodeId, to: NodeId)
    requires ParentsAttached(g, from) && Rewired(g, g1, Movable(g, from, to), to)
    ensures SameEdges(g, g1)
  {
  }

  lemma MasksSame(g: Graph, g': Graph, owners: set<NodeId>)
    requires MasksChanged(g, g', owners)
    ensures SameEdges(g, g')
  {
  }

  lemma MovedKeeps(h: Hooks, g: Graph, from: NodeId, to: NodeId, roots: seq<NodeId>, g': Graph)
    requires MovedAndRefreshed(h, g, from, to, roots, g') && ParentsAttached(g, from)
    ensures SameEdges(g, g')
  {
    assert Mentioned(g');
    var g1 :| ParentsMoved(g, g1, from, to) && Refreshed(h, g1, roots, g');
    RewiredSame(g, g1, from, to);
    MasksSame(g1, g', SubtreeSetters(g1, roots));
    SameTrans(g, g1, g');
  }

  lemma DetachedBeside(g: Graph, e: EdgeId)
    requires e in g.edges
    ensures OldBeside(g, Without(Redirect(g, e, None), {e}), None)
  {
  }

  lemma BesideTrans(g: Graph, g1: Graph, g2: Graph)
    requires OldBeside(g, g1, None) && OldBeside(g1, g2, None)
    ensures OldBeside(g, g2, None)
  {
  }

  lemma DroppingKeeps(h: Hooks, g: Graph, from: NodeId, to: NodeId, e: EdgeId, g': Graph)
    requires ParentsAttached(g, from) && BypassedTo(h, g, from, to, e, g')
    ensures OldBeside(g, g', None)
  {
    assert Mentioned(g');
    var g2 :| Bypassed(g, g2, from, to, e) && Refreshed(h, Without(g2, {e}), [from, to], g');
    var g1 :| ParentsMoved(g, g1, from, to) && e in g1.edges && g2 == Redirect(g1, e, None);
    RewiredSame(g, g1, from, to);
    DetachedBeside(g1, e);
    BesideTrans(g, g1, Without(g2, {e}));
    MasksSame(Without(g2, {e}), g', SubtreeSetters(Without(g2, {e}), [from, to]));
    BesideTrans(g, Without(g2, {e}), g');
  }

  lemma SameTrans(g: Graph, g1: Graph, g': Graph)
    requires SameEdges(g, g1) && SameEdges(g1, g')
    ensures SameEdges(g, g')
  {
  }

  lemma AppendingAdds(h: Hooks, g: Graph, e: EdgeId, bsNew: NodeId, bsTop: NodeId, g': Graph)
    requires WellFormed(g) && bsNew in g.nodes && AppendOutcome(h, g, e, bsNew, bsTop, true, true, g')
    ensures OldBeside(g, g', Some(e)) && NewLinkIs(g', e, bsNew, BackingRole(g, bsNew))
  {
    var g1 := Linked(h, g, e, bsNew, bsTop, BackingRole(g, bsNew));
    assert ParentsAttached(g1, bsTop);
    MovedKeeps(h, g1, bsTop, bsNew, [bsNew], g');
  }

  /** What a node without a link gets: none if and only if the arguments spare it, else one that is not frozen. */
  ghost predicate LinkAsTold(g: Graph, op: Operation, g': Graph, n: NodeId) {
    && n in g'.nodes && (ChainEdge(g', n).None? <==> Spares(g, op, n))
    && (ChainEdge(g', n).Some? ==> ChainEdge(g', n).value in g'.edges && !g'.edges[ChainEdge(g', n).value].frozen)
  }

  /** The only new edge is e, which belongs to `owner` and is not frozen. */
  lemma OneNewChild(g: Graph, g': Graph, e: EdgeId, owner: NodeId, role: Role, n: NodeId)
    requires WellFormed(g) && WellFormed(g') && NodesKept(g, g') && n in g.nodes && ChainEdge(g, n).None?
    requires OldBeside(g, g', Some(e)) && NewLinkIs(g', e, owner, role) && owner in g.nodes
    ensures n in g'.nodes && (ChainEdge(g', n).None? <==> owner != n || !IsLink(g.nodes[n], role))
    ensures ChainEdge(g', n).Some? ==> ChainEdge(g', n).value in g'.edges && !g'.edges[ChainEdge(g', n).value].frozen
  {
    assert SameNode(g.nodes[n], g'.nodes[n]);
    if owner != n {
      assert NoNewChild(g, g', n);
      StillNoLink(g, g', n);
    } else {
      LinkThere(g', n, e);
      if !IsLink(g.nodes[n], role) {
        OtherChild(g, g', e, n, role);
      }
    }
  }

  /** A child that is no link does not become one. */
  lemma OtherChild(g: Graph, g': Graph, e: EdgeId, n: NodeId, role: Role)
    requires WellFormed(g) && WellFormed(g') && NodesKept(g, g') && n in g.nodes && ChainEdge(g, n).None?
    requires OldBeside(g, g', Some(e)) && NewLinkIs(g', e, n, role) && !IsLink(g.nodes[n], role)
    ensures n in g'.nodes && ChainEdge(g', n).None?
  {
    assert SameNode(g.nodes[n], g'.nodes[n]);
    if ChainEdge(g', n).Some? {
      ChainEdgeIsChild(g', n);
      var x := ChainEdge(g', n).value;
      assert SlotsWf(g', n);
      LinkThere(g, n, x);
      assert false;
    }
  }

  lemma NoNewEdge(g: Graph, g': Graph, n: NodeId)
    requires WellFormed(g) && WellFormed(g') && NodesKept(g, g') && n in g.nodes && ChainEdge(g, n).None?
    requires OldBeside(g, g', None)
    ensures n in g'.nodes && ChainEdge(g', n).None?
  {
    assert NoNewChild(g, g', n);
    StillNoLink(g, g', n);
  }

  lemma AttachingAsTold(h: Hooks, parent: NodeId, child: NodeId, role: Role, g: Graph, g': Graph, n: NodeId)
    requires WellFormed(g) && WellFormed(g') && n in g.nodes && ChainEdge(g, n).None?
    requires Did(h, Attaching(parent, child, role), g, g') && FrozenKept(g, g')
    ensures LinkAsTold(g, Attaching(parent, child, role), g', n)
  {
    var e :| AttachOutcome(h, g, e, parent, child, role, true, true, g');
    AttachingAdds(h, g, e, parent, child, role, g');
    OneNewChild(g, g', e, parent, role, n);
  }

  lemma SettingAsTold(h: Hooks, top: NodeId, backing: Option<NodeId>, g: Graph, g': Graph, n: NodeId)
    requires WellFormed(g) && WellFormed(g') && n in g.nodes && ChainEdge(g, n).None?
    requires Did(h, SettingBacking(top, backing), g, g') && FrozenKept(g, g')
    ensures LinkAsTold(g, SettingBacking(top, backing), g', n)
  {
    var e :| SetBackingOutcome(h, g, e, top, backing, true, true, g');
    SettingBackingAdds(h, g, e, top, backing, g');
    if backing.Some? {
      OneNewChild(g, g', e, top, SlotRole(g, top, true), n);
    } else {
      NoNewEdge(g, g', n);
    }
  }

  lemma AppendingAsTold(h: Hooks, bsNew: NodeId, bsTop: NodeId, g: Graph, g': Graph, n: NodeId)
    requires WellFormed(g) && WellFormed(g') && n in g.nodes && ChainEdge(g, n).None?
    requires Did(h, Appending(bsNew, bsTop), g, g') && FrozenKept(g, g')
    ensures LinkAsTold(g, Appending(bsNew, bsTop), g', n)
  {
    var e :| AppendOutcome(h, g, e, bsNew, bsTop, true, true, g');
    AppendingAdds(h, g, e, bsNew, bsTop, g');
    OneNewChild(g, g', e, bsNew, BackingRole(g, bsNew), n);
  }

  lemma DidKeepsFrozen(h: Hooks, op: Operation, g: Graph, g': Graph)
    requires Did(h, op, g, g') && !op.Unfreezing?
    ensures FrozenKept(g, g')
  {
    if op.Creating? {
      NewNodeKeeps(g, op.created, op.state, op.source);
    } else if op.Freezing? {
      FreezingKeeps(g, LinkSet(Links(g, op.start, op.base)));
    } else {
      assert Harmless(g, g');
      HarmlessKeeps(g, g');
    }
  }

  /** A new node leaves all others and every frozen edge as they are. */
  lemma NewNodeKeeps(g: Graph, n: NodeId, node: Node, from: Option<NodeId>)
    requires n !in g.nodes
    ensures FrozenKept(g, WithNode(g, n, node, from))
  {
  }

  lemma FreezingKeeps(g: Graph, s: set<EdgeId>)
    ensures FrozenKept(g, WithFrozen(g, s, true))
  {
  }

  lemma UnfreezingHolds(g: Graph, s: set<EdgeId>, links: seq<EdgeId>)
    requires forall e | e in links :: e !in s
    ensures LinksHeld(g, WithFrozen(g, s, false), links)
  {
  }

  /** An operation that succeeds leaves frozen links alone, if it is not the one that unfreezes them. */
  lemma DidHolds(h: Hooks, op: Operation, g: Graph, g': Graph, links: seq<EdgeId>)
    requires Did(h, op, g, g') && !Thaws(g, op, links)
    ensures LinksHeld(g, g', links)
  {
    if op.Unfreezing? {
      UnfreezingHolds(g, LinkSet(Links(g, op.start, op.base)), links);
    } else {
      DidKeepsFrozen(h, op, g, g');
    }
  }

  lemma ListedAttached(g: Graph, n: NodeId)
    requires WellFormed(g)
    ensures ParentsAttached(g, n)
  {
  }

  lemma ReplacingAsTold(h: Hooks, from: NodeId, to: NodeId, g: Graph, g': Graph, n: NodeId)
    requires WellFormed(g) && WellFormed(g') && n in g.nodes && ChainEdge(g, n).None?
    requires MovedAndRefreshed(h, g, from, to, [from, to], g') && FrozenKept(g, g')
    ensures n in g'.nodes && ChainEdge(g', n).None?
  {
    ListedAttached(g, from);
    MovedKeeps(h, g, from, to, [from, to], g');
    NoNewEdge(g, g', n);
  }

  lemma DroppingAsTold(h: Hooks, from: NodeId, to: NodeId, e: EdgeId, g: Graph, g': Graph, n: NodeId)
    requires WellFormed(g) && WellFormed(g') && n in g.nodes && ChainEdge(g, n).None?
    requires BypassedTo(h, g, from, to, e, g') && FrozenKept(g, g')
    ensures n in g'.nodes && ChainEdge(g', n).None?
  {
    ListedAttached(g, from);
    DroppingKeeps(h, g, from, to, e, g');
    NoNewEdge(g, g', n);
  }

  lemma RootAsTold(h: Hooks, edge: Edge, node: NodeId, g: Graph, g': Graph, n: NodeId)
    requires WellFormed(g) && WellFormed(g') && n in g.nodes && ChainEdge(g, n).None?
    requires Did(h, AttachingRoot(edge, node), g, g') && FrozenKept(g, g')
    ensures n in g'.nodes && ChainEdge(g', n).None?
  {
    var e :| RootOutcome(h, g, e, edge, node, true, true, g');
    AttachingRootAdds(h, g, e, edge, node, g');
    assert NoNewChild(g, g', n);
    StillNoLink(g, g', n);
  }

  lemma CreatingAsTold(g: Graph, created: NodeId, state: Node, source: Option<NodeId>, n: NodeId)
    requires n in g.nodes && ChainEdge(g, n).None? && created !in g.nodes
    ensures n in WithNode(g, created, state, source).nodes && ChainEdge(WithNode(g, created, state, source), n).None?
  {
  }

  lemma FlagsAsTold(g: Graph, s: set<EdgeId>, f: bool, n: NodeId)
    requires n in g.nodes && ChainEdge(g, n).None?
    ensures n in WithFrozen(g, s, f).nodes && ChainEdge(WithFrozen(g, s, f), n).None?
  {
  }

  /** An operation that succeeds gives a node without a link exactly what its arguments tell. */
  lemma DidAsTold(h: Hooks, op: Operation, g: Graph, g': Graph, n: NodeId)
    requires WellFormed(g) && WellFormed(g') && Did(h, op, g, g') && n in g.nodes && ChainEdge(g, n).None?
    ensures LinkAsTold(g, op, g', n) && (!op.Unfreezing? ==> FrozenKept(g, g'))
  {
    if !op.Unfreezing? {
      DidKeepsFrozen(h, op, g, g');
    }
    match op {
      case Attaching(parent, child, role) => AttachingAsTold(h, parent, child, role, g, g', n);
      case AttachingRoot(edge, node) => RootAsTold(h, edge, node, g, g', n);
      case SettingBacking(top, backing) => SettingAsTold(h, top, backing, g, g', n);
      case Appending(bsNew, bsTop) => AppendingAsTold(h, bsNew, bsTop, g, g', n);
      case Replacing(from, to) => ReplacingAsTold(h, from, to, g, g', n);
      case DroppingFilter(filter, under, link) => DroppingAsTold(h, filter, under, link, g, g', n);
      case Creating(created, state, source) => CreatingAsTold(g, created, state, source, n);
      case Freezing(start, base) => FlagsAsTold(g, LinkSet(Links(g, start, base)), true, n);
      case Unfreezing(start, base) => FlagsAsTold(g, LinkSet(Links(g, start, base)), false, n);
    }
  }

  /** A chain that is frozen down to its end: an operation leaves it as it is if and only if its arguments
      spare the last node.  Otherwise it has grown by a link that is not frozen, and unfreezing it down to its
      end trips an assertion. */
  lemma EndKeptExactly(h: Hooks, op: Operation, g: Graph, g': Graph, n: NodeId)
    requires SoundGraph(g) && SoundGraph(g') && Did(h, op, g, g') && n in g.nodes && AllFrozen(g, Links(g, n, None))
    ensures n in g'.nodes && (Links(g', n, None) == Links(g, n, None) <==> Spares(g, op, Last(g, n)))
    ensures AllFrozen(g', Links(g', n, None)) <==> Spares(g, op, Last(g, n)) && !Thaws(g, op, Links(g, n, None))
  {
    if Thaws(g, op, Links(g, n, None)) {
      ThawedChain(g, op.start, op.base, n);
    } else {
      NotThawedChain(h, op, g, g', n);
    }
  }

  lemma ThawedChain(g: Graph, m: NodeId, base: Option<NodeId>, n: NodeId)
    requires n in g.nodes && HasChain(g, m, base) && SoundGraph(WithFrozen(g, LinkSet(Links(g, m, base)), false))
    requires exists e :: e in Links(g, n, None) && e in Links(g, m, base)
    ensures var g' := WithFrozen(g, LinkSet(Links(g, m, base)), false);
            Links(g', n, None) == Links(g, n, None) && !AllFrozen(g', Links(g', n, None))
  {
    SameLinks(g, LinkSet(Links(g, m, base)), false, n, None);
  }

  lemma NotThawedChain(h: Hooks, op: Operation, g: Graph, g': Graph, n: NodeId)
    requires SoundGraph(g) && SoundGraph(g') && Did(h, op, g, g') && n in g.nodes && AllFrozen(g, Links(g, n, None))
    requires !Thaws(g, op, Links(g, n, None))
    ensures n in g'.nodes && (Links(g', n, None) == Links(g, n, None) <==> Spares(g, op, Last(g, n)))
    ensures AllFrozen(g', Links(g', n, None)) <==> Spares(g, op, Last(g, n))
  {
    LastHasNoLink(g, n);
    DidHolds(h, op, g, g', Links(g, n, None));
    DidAsTold(h, op, g, g', Last(g, n));
    ChainToEndKept(g, g', n);
    if !Spares(g, op, Last(g, n)) {
      GrownLink(g, g', n);
    }
  }

  // ---------------------------------------------------------------- an example

  /** Drivers that need nothing of their children and accept everything. */
  function Undemanding(): Hooks {
    Hooks((_, _, _, _) => ({}, PERM_ALL), (_, _, _) => true, _ => true, _ => true)
  }

  /** Two nodes without edges. */
  function TwoNodes(): Graph {
    var node := Node(Driver(false, true, false, true), true, {}, {}, None, None, false, false);
    Graph(map[0 := node, 1 := node], map[], map[])
  }

  function Joined(): Graph {
    Linked(Undemanding(), TwoNodes(), 0, 0, 1, ROLE_COW)
  }

  lemma NoArcs(g: Graph)
    requires g.edges == map[]
    ensures AcyclicGraph(g) && forall x: NodeId, y: NodeId :: !Arc(ArcsOf(g), x, y)
  {
    forall x: NodeId, y: NodeId ensures !Arc(ArcsOf(g), x, y) {
      assert x in g.nodes ==> ChildNodes(g, x) == {};
    }
  }

  lemma TwoNodesSound()
    ensures SoundGraph(TwoNodes()) && !Reach(ArcsOf(TwoNodes()), 1, 0)
  {
    NoArcs(TwoNodes());
    ReachCases(ArcsOf(TwoNodes()), 1, 0);
  }

  lemma JoinedSound()
    ensures SoundGraph(TwoNodes()) && SoundGraph(Joined())
    ensures !Reach(ArcsOf(TwoNodes()), 1, 0) && FrozenKept(TwoNodes(), Joined())
  {
    TwoNodesSound();
    EndGrows(TwoNodes(), 0, 1, 0, NewEdge(Undemanding(), TwoNodes(), 0, 1, ROLE_COW));
  }

  lemma JoinedConsistent(n: NodeId)
    requires n in Joined().nodes
    ensures Consistent(Undemanding(), Joined(), n)
  {
    var g := Joined();
    assert g.edges.Keys == {0} && g.edges[0].perm == {} && g.edges[0].shared == PERM_ALL;
    assert CumulativePerm(g, n) == {};
  }

  lemma JoinedIsSet()
    ensures SlotSet(Undemanding(), TwoNodes(), 0, 0, Some(1), true) == Joined()
    ensures SlotStatus(TwoNodes(), 0, true).Ok? && SlotGone(TwoNodes(), 0, true) == {}
  {
    var g := TwoNodes();
    assert Orphaned(g.inherits, SlotDisowned(g, 0, true)) == map[];
    assert !Reach(Lineage(g.inherits), 1, 0) by {
      ReachCases(Lineage(g.inherits), 1, 0);
    }
  }

  ghost predicate AllConsistent(h: Hooks, g: Graph) {
    forall n | n in g.nodes :: Consistent(h, g, n)
  }

  lemma ConsistentIsRefreshed(h: Hooks, g: Graph, roots: seq<NodeId>, g': Graph)
    requires AllConsistent(h, g') && FrozenKept(g, g')
    ensures Refreshed(h, g', roots, g') && Harmless(g, g')
  {
  }

  lemma NothingToRefresh(h: Hooks, g: Graph, n: NodeId, backing: NodeId, g': Graph)
    requires n in g.nodes && 0 !in g.edges && SlotStatus(g, n, true).Ok? && !Reach(ArcsOf(g), backing, n)
    requires SlotGone(g, n, true) == {} && g' == SlotSet(h, g, 0, n, Some(backing), true)
    requires Refreshable(h, g', [n]) && RefreshedTo(h, g', [n], g') && Harmless(g, g')
    ensures SetBackingOutcome(h, g, 0, n, Some(backing), true, true, g')
  {
    WithoutNothing(g');
  }

  lemma JoinedRefreshed()
    ensures var h, g' := Undemanding(), Joined(); Refreshable(h, g', [0]) && RefreshedTo(h, g', [0], g')
    ensures Harmless(TwoNodes(), Joined())
  {
    JoinedSound();
    forall n | n in Joined().nodes ensures Consistent(Undemanding(), Joined(), n) {
      JoinedConsistent(n);
    }
    ConsistentIsRefreshed(Undemanding(), TwoNodes(), [0], Joined());
  }

  lemma JoinedDone()
    ensures Did(Undemanding(), SettingBacking(0, Some(1)), TwoNodes(), Joined())
  {
    JoinedSound();
    JoinedIsSet();
    JoinedRefreshed();
    NothingToRefresh(Undemanding(), TwoNodes(), 0, 1, Joined());
  }

  /** For example, bdrv_set_backing_hd can give the last node of a chain a backing file although the chain was
      frozen down to its end. */
  lemma EndCanGrow()
    ensures SoundGraph(TwoNodes()) && SoundGraph(Joined()) && AllFrozen(TwoNodes(), Links(TwoNodes(), 0, None))
    ensures Did(Undemanding(), SettingBacking(0, Some(1)), TwoNodes(), Joined())
    ensures Links(TwoNodes(), 0, None) != Links(Joined(), 0, None) && !AllFrozen(Joined(), Links(Joined(), 0, None))
  {
    JoinedSound();
    JoinedDone();
    EndKeptExactly(Undemanding(), SettingBacking(0, Some(1)), TwoNodes(), Joined(), 0);
  }

  // ---------------------------------------------------------------- runs

  ghost predicate ChainAt(g: Graph, n: NodeId, links: seq<EdgeId>) {
    SoundGraph(g) && n in g.nodes && Links(g, n, None) == links
  }

  /** The chain of n is `links`, all frozen, and ends at `last`. */
  ghost predicate FrozenAt(g: Graph, n: NodeId, links: seq<EdgeId>, last: NodeId) {
    ChainAt(g, n, links) && AllFrozen(g, links) && Last(g, n) == last
  }

  lemma EndStep(h: Hooks, op: Operation, g: Graph, g': Graph, n: NodeId, links: seq<EdgeId>, last: NodeId)
    requires FrozenAt(g, n, links, last) && SoundGraph(g') && Did(h, op, g, g') && !Thaws(g, op, links)
    ensures ChainAt(g', n, links) <==> Spares(g, op, last)
    ensures Spares(g, op, last) ==> FrozenAt(g', n, links, last)
  {
    EndKeptExactly(h, op, g, g', n);
    if Spares(g, op, last) {
      LastHasNoLink(g, n);
      DidAsTold(h, op, g, g', last);
      DidHolds(h, op, g, g', links);
      SameLast(g, g', n);
    }
  }

  ghost predicate StepDone(h: Hooks, ops: seq<Operation>, gs: seq<Graph>, i: nat)
    requires i < |ops| < |gs|
  {
    SoundGraph(gs[i + 1]) && Did(h, ops[i], gs[i], gs[i + 1])
  }

  ghost predicate OperationRun(h: Hooks, ops: seq<Operation>, gs: seq<Graph>) {
    |gs| == |ops| + 1 && forall i {:trigger StepDone(h, ops, gs, i)} | 0 <= i < |ops| :: StepDone(h, ops, gs, i)
  }

  /** Nobody unfreezes one of these links: a link is unfrozen by whoever froze it. */
  ghost predicate NoneThaws(ops: seq<Operation>, gs: seq<Graph>, links: seq<EdgeId>) {
    |ops| < |gs| && forall i | 0 <= i < |ops| :: !Thaws(gs[i], ops[i], links)
  }

  /** A run of operations in which nobody else unfreezes the links is one that `UnfreezeRestores` speaks of. */
  lemma RunHolds(h: Hooks, ops: seq<Operation>, gs: seq<Graph>, links: seq<EdgeId>)
    requires OperationRun(h, ops, gs) && SoundGraph(gs[0]) && NoneThaws(ops, gs, links)
    ensures Holding(gs, links)
  {
    forall i | 0 <= i < |gs| ensures SoundGraph(gs[i]) {
      assert i > 0 ==> StepDone(h, ops, gs, i - 1);
    }
    forall i | 0 <= i < |gs| - 1 ensures LinksHeld(gs[i], gs[i + 1], links) {
      assert StepDone(h, ops, gs, i);
      DidHolds(h, ops[i], gs[i], gs[i + 1], links);
    }
  }

  lemma RunStep(h: Hooks, ops: seq<Operation>, gs: seq<Graph>, i: nat, n: NodeId, links: seq<EdgeId>, last: NodeId)
    requires OperationRun(h, ops, gs) && NoneThaws(ops, gs, links) && i < |ops| && FrozenAt(gs[i], n, links, last)
    ensures ChainAt(gs[i + 1], n, links) <==> Spares(gs[i], ops[i], last)
    ensures Spares(gs[i], ops[i], last) ==> FrozenAt(gs[i + 1], n, links, last)
  {
    assert StepDone(h, ops, gs, i);
    EndStep(h, ops[i], gs[i], gs[i + 1], n, links, last);
  }

  /** All operations before k spare the node. */
  ghost predicate AllSpare(gs: seq<Graph>, ops: seq<Operation>, n: NodeId, k: nat) {
    k <= |ops| && k <= |gs| && forall i | 0 <= i < k :: Spares(gs[i], ops[i], n)
  }

  lemma {:induction false} SparedStays(h: Hooks, ops: seq<Operation>, gs: seq<Graph>, n: NodeId, links: seq<EdgeId>,
                                       last: NodeId, k: nat)
    requires OperationRun(h, ops, gs) && NoneThaws(ops, gs, links) && k <= |ops|
    requires FrozenAt(gs[0], n, links, last) && AllSpare(gs, ops, last, k)
    ensures FrozenAt(gs[k], n, links, last)
  {
    if k > 0 {
      SparedStays(h, ops, gs, n, links, last, k - 1);
      RunStep(h, ops, gs, k - 1, n, links, last);
    }
  }

  lemma {:induction false} StayedIsSpared(h: Hooks, ops: seq<Operation>, gs: seq<Graph>, n: NodeId,
                                          links: seq<EdgeId>, last: NodeId, k: nat)
    requires OperationRun(h, ops, gs) && NoneThaws(ops, gs, links) && k <= |ops| && FrozenAt(gs[0], n, links, last)
    requires forall i | 0 <= i <= k :: ChainAt(gs[i], n, links)
    ensures AllSpare(gs, ops, last, k)
  {
    if k > 0 {
      StayedIsSpared(h, ops, gs, n, links, last, k - 1);
      SparedStays(h, ops, gs, n, links, last, k - 1);
      RunStep(h, ops, gs, k - 1, n, links, last);
      assert ChainAt(gs[k], n, links);
    }
  }

  /** So over a run: at all times up to k the chain is what it was, if and only if all operations up to then
      spared its last node. */
  lemma EndKeptOverRun(h: Hooks, ops: seq<Operation>, gs: seq<Graph>, n: NodeId, links: seq<EdgeId>, last: NodeId,
                       k: nat)
    requires OperationRun(h, ops, gs) && NoneThaws(ops, gs, links) && k <= |ops| && FrozenAt(gs[0], n, links, last)
    ensures (forall i | 0 <= i <= k :: ChainAt(gs[i], n, links)) <==> AllSpare(gs, ops, last, k)
  {
    if AllSpare(gs, ops, last, k) {
      forall i: nat | i <= k ensures ChainAt(gs[i], n, links) {
        SparedStays(h, ops, gs, n, links, last, i);
      }
    }
    if forall i | 0 <= i <= k :: ChainAt(gs[i], n, links) {
      StayedIsSpared(h, ops, gs, n, links, last, k);
    }
  }

  lemma {:induction false} SameLast(g: Graph, g': Graph, n: NodeId)
    requires SoundGraph(g) && SoundGraph(g') && n in g.nodes
    requires LinksHeld(g, g', Links(g, n, None)) && AllFrozen(g, Links(g, n, None))
    requires Last(g, n) in g'.nodes && ChainEdge(g', Last(g, n)).None?
    ensures n in g'.nodes && Last(g', n) == Last(g, n)
    decreases Descendants(ArcsOf(g), n)
  {
    if ChainEdge(g, n).Some? {
      ChainDescends(g, n);
      var e := ChainEdge(g, n).value;
      var rest := Links(g, g.edges[e].bs.value, None);
      assert e in [e] + rest && forall x | x in rest :: x in [e] + rest;
      LinkKept(g, g', n, [e] + rest);
      SameLast(g, g', g.edges[e].bs.value);
    }
  }
}
