/**
 Backing chains and freezing their links.
 */
module BackingChains {
  import opened Basics
  import opened Reachability
  import opened BlockGraph
  import opened Permissions
  import opened GraphEdits
  import opened Transactions
  import opened GraphResults

  /** bdrv_filter_or_cow_child. */
  function ChainEdge(g: Graph, n: NodeId): Option<EdgeId>
    requires n in g.nodes
  {
    var node := g.nodes[n];
    if !node.hasDrv then None
    else if node.drv.isFilter then (if node.backing.Some? then node.backing else node.file)
    else node.backing
  }

  lemma ChainEdgeIsChild(g: Graph, n: NodeId)
    requires WellFormed(g) && n in g.nodes && ChainEdge(g, n).Some?
    ensures var e := ChainEdge(g, n).value;
            && e in g.nodes[n].children && e in g.edges && g.edges[e].owner == Bds(n)
            && g.edges[e].bs.Some? && g.edges[e].bs.value in g.nodes
  {
    assert SlotsWf(g, n);
    var e := ChainEdge(g, n).value;
    assert EdgeWf(g, e);
  }

  lemma ChainDescends(g: Graph, n: NodeId)
    requires WellFormed(g) && AcyclicGraph(g) && n in g.nodes && ChainEdge(g, n).Some?
    ensures var e := ChainEdge(g, n).value;
            && e in g.edges && g.edges[e].bs.Some? && g.edges[e].bs.value in g.nodes
            && Descendants(ArcsOf(g), g.edges[e].bs.value) < Descendants(ArcsOf(g), n)
  {
    ChainEdgeIsChild(g, n);
    EdgeDescends(g, n, ChainEdge(g, n).value);
  }

  /** The links of the chain from n down to `base`, or to the end of the chain. */
  ghost function Links(g: Graph, n: NodeId, base: Option<NodeId>): seq<EdgeId>
    requires WellFormed(g) && AcyclicGraph(g) && n in g.nodes
    decreases Descendants(ArcsOf(g), n)
  {
    if base == Some(n) || ChainEdge(g, n).None? then []
    else
      ChainDescends(g, n);
      var e := ChainEdge(g, n).value;
      [e] + Links(g, g.edges[e].bs.value, base)
  }

  ghost predicate SoundGraph(g: Graph) {
    WellFormed(g) && AcyclicGraph(g)
  }

  /** `base` is in the chain, or NULL. */
  ghost predicate HasBase(g: Graph, n: NodeId, base: Option<NodeId>)
    requires WellFormed(g) && AcyclicGraph(g) && n in g.nodes
    decreases Descendants(ArcsOf(g), n)
  {
    base.None? || base == Some(n) || (ChainEdge(g, n).Some? &&
      (ChainDescends(g, n); HasBase(g, g.edges[ChainEdge(g, n).value].bs.value, base)))
  }

  function WithFrozen(g: Graph, s: set<EdgeId>, f: bool): Graph {
    g.(edges := map e | e in g.edges :: if e in s then g.edges[e].(frozen := f) else g.edges[e])
  }

  ghost predicate AllFrozen(g: Graph, links: seq<EdgeId>) {
    forall e | e in links :: e in g.edges && g.edges[e].frozen
  }

  predicate CanFreeze(g: Graph, e: EdgeId) {
    e in g.edges && !g.edges[e].frozen
    && (g.edges[e].bs.Some? && g.edges[e].bs.value in g.nodes ==> !g.nodes[g.edges[e].bs.value].neverFreeze)
  }

  lemma WithFrozenShape(g: Graph, s: set<EdgeId>, f: bool)
    requires WellFormed(g)
    ensures WellFormed(WithFrozen(g, s, f)) && ArcsOf(WithFrozen(g, s, f)) == ArcsOf(g)
  {
    var g' := WithFrozen(g, s, f);
    forall n | n in g.nodes ensures SlotsWf(g', n) && ChildNodes(g', n) == ChildNodes(g, n) {
      assert SlotsWf(g, n);
    }
    forall x | x in g'.edges ensures EdgeWf(g', x) {
      assert EdgeWf(g, x);
    }
  }

  /** Nobody touched those of the links that were frozen; other frozen edges may have been unfrozen. */
  ghost predicate LinksHeld(g: Graph, g': Graph, links: seq<EdgeId>) {
    && NodesKept(g, g')
    && forall e | e in links && e in g.edges && g.edges[e].frozen ::
         e in g'.edges && g'.edges[e] == WithMasks(g.edges[e], (g'.edges[e].perm, g'.edges[e].shared))
  }

  lemma HeldTrans(g: Graph, g1: Graph, g2: Graph, links: seq<EdgeId>)
    requires LinksHeld(g, g1, links) && LinksHeld(g1, g2, links)
    ensures LinksHeld(g, g2, links)
  {
  }

  /** A frozen link is still the link of its node if nobody touched it. */
  lemma LinkKept(g: Graph, g': Graph, n: NodeId, links: seq<EdgeId>)
    requires WellFormed(g) && WellFormed(g') && LinksHeld(g, g', links) && n in g.nodes && ChainEdge(g, n).Some?
    requires ChainEdge(g, n).value in links && AllFrozen(g, links)
    ensures n in g'.nodes && ChainEdge(g', n) == ChainEdge(g, n) && ChainEdge(g, n).value in g'.edges
    ensures g'.edges[ChainEdge(g, n).value].bs == g.edges[ChainEdge(g, n).value].bs
  {
    var e := ChainEdge(g, n).value;
    ChainEdgeIsChild(g, n);
    assert SameNode(g.nodes[n], g'.nodes[n]);
    assert SlotsWf(g, n) && SlotsWf(g', n) && EdgeWf(g', e);
  }

  /** While all links from n to a base are frozen, the chain between them does not change. */
  lemma {:induction false} ChainKept(g: Graph, g': Graph, n: NodeId, base: NodeId)
    requires SoundGraph(g) && SoundGraph(g') && n in g.nodes && LinksHeld(g, g', Links(g, n, Some(base)))
    requires HasBase(g, n, Some(base)) && AllFrozen(g, Links(g, n, Some(base)))
    ensures n in g'.nodes && Links(g', n, Some(base)) == Links(g, n, Some(base)) && HasBase(g', n, Some(base))
    decreases Descendants(ArcsOf(g), n)
  {
    if base != n {
      ChainDescends(g, n);
      var e := ChainEdge(g, n).value;
      var below := g.edges[e].bs.value;
      var rest := Links(g, below, Some(base));
      assert Links(g, n, Some(base)) == [e] + rest;
      assert e in [e] + rest && forall x | x in rest :: x in [e] + rest;
      LinkKept(g, g', n, [e] + rest);
      ChainKept(g, g', below, base);
    }
  }

  /** Any number of steps after another, none of which touches one of the links while it is frozen. */
  ghost predicate Holding(gs: seq<Graph>, links: seq<EdgeId>) {
    && |gs| > 0 && (forall i | 0 <= i < |gs| :: SoundGraph(gs[i]))
    && forall i | 0 <= i < |gs| - 1 :: LinksHeld(gs[i], gs[i + 1], links)
  }

  lemma {:induction false} HeldOverRun(gs: seq<Graph>, links: seq<EdgeId>, k: nat)
    requires Holding(gs, links) && k < |gs|
    ensures LinksHeld(gs[0], gs[k], links)
  {
    if k > 0 {
      HeldOverRun(gs, links, k - 1);
      assert LinksHeld(gs[k - 1], gs[k - 1 + 1], links);
      HeldTrans(gs[0], gs[k - 1], gs[k], links);
    }
  }

  /** So it is the same after any number of such steps. */
  lemma ChainKeptOverRun(gs: seq<Graph>, n: NodeId, base: NodeId, links: seq<EdgeId>, k: nat)
    requires Holding(gs, links) && k < |gs| && SoundGraph(gs[0]) && n in gs[0].nodes && HasBase(gs[0], n, Some(base))
    requires links == Links(gs[0], n, Some(base)) && AllFrozen(gs[0], links)
    ensures SoundGraph(gs[k]) && n in gs[k].nodes && HasBase(gs[k], n, Some(base))
    ensures Links(gs[k], n, Some(base)) == links
    ensures LinksHeld(gs[0], gs[k], links) && AllFrozen(gs[k], links)
  {
    HeldOverRun(gs, links, k);
    assert SoundGraph(gs[k]);
    ChainKept(gs[0], gs[k], n, base);
  }

  /** The last node of the chain. */
  ghost function Last(g: Graph, n: NodeId): NodeId
    requires WellFormed(g) && AcyclicGraph(g) && n in g.nodes
    decreases Descendants(ArcsOf(g), n)
  {
    if ChainEdge(g, n).None? then n
    else
      ChainDescends(g, n);
      Last(g, g.edges[ChainEdge(g, n).value].bs.value)
  }

  /** A chain that is frozen down to its end stays the same if and only if its last node still has no link:
      there is no link there that could have been frozen. */
  lemma {:induction false} ChainToEndKept(g: Graph, g': Graph, n: NodeId)
    requires SoundGraph(g) && SoundGraph(g') && n in g.nodes && LinksHeld(g, g', Links(g, n, None))
    requires AllFrozen(g, Links(g, n, None))
    ensures n in g'.nodes && Last(g, n) in g'.nodes
    ensures Links(g', n, None) == Links(g, n, None) <==> ChainEdge(g', Last(g, n)).None?
    decreases Descendants(ArcsOf(g), n)
  {
    assert n in g'.nodes;
    if ChainEdge(g, n).Some? {
      ChainDescends(g, n);
      var e := ChainEdge(g, n).value;
      var below := g.edges[e].bs.value;
      var rest := Links(g, below, None);
      assert Links(g, n, None) == [e] + rest;
      assert e in [e] + rest && forall x | x in rest :: x in [e] + rest;
      LinkKept(g, g', n, [e] + rest);
      ChainToEndKept(g, g', below);
      var rest' := Links(g', below, None);
      assert Links(g', n, None) == [e] + rest';
      assert ([e] + rest')[1..] == rest' && ([e] + rest)[1..] == rest;
    }
  }

  /** Giving the last node of a chain a backing file keeps all frozen edges, but makes the chain longer. */
  lemma EndGrows(g: Graph, n: NodeId, backing: NodeId, e: EdgeId, edge: Edge)
    requires WellFormed(g) && AcyclicGraph(g) && n in g.nodes && backing in g.nodes && e !in g.edges
    requires g.nodes[n].hasDrv && !g.nodes[n].drv.isFilter && Fits(g.nodes[n].drv, ROLE_COW)
    requires g.nodes[n].backing.None? && !Reach(ArcsOf(g), backing, n)
    requires edge.owner == Bds(n) && edge.role == ROLE_COW && edge.bs.None?
    ensures var g' := LinkNew(g, e, edge, backing);
            && WellFormed(g') && AcyclicGraph(g') && FrozenKept(g, g')
            && Links(g, n, None) == [] && Links(g', n, None) != []
  {
    FrozenLinked(g, e, edge, backing);
    BackingLinked(g, n, backing, e, edge);
  }

  lemma BackingLinked(g: Graph, n: NodeId, backing: NodeId, e: EdgeId, edge: Edge)
    requires WellFormed(g) && AcyclicGraph(g) && n in g.nodes && backing in g.nodes && e !in g.edges
    requires g.nodes[n].hasDrv && !g.nodes[n].drv.isFilter && Fits(g.nodes[n].drv, ROLE_COW)
    requires g.nodes[n].backing.None? && !Reach(ArcsOf(g), backing, n)
    requires edge.owner == Bds(n) && edge.role == ROLE_COW && edge.bs.None?
    ensures var g' := LinkNew(g, e, edge, backing);
            WellFormed(g') && AcyclicGraph(g') && n in g'.nodes && ChainEdge(g', n) == Some(e)
  {
    AddEdgeWf(g, e, edge);
    RedirectWf(AddEdge(g, e, edge), e, Some(backing));
    RedirectAcyclic(AddEdge(g, e, edge), e, Some(backing));
  }

  function LinkSet(links: seq<EdgeId>): set<EdgeId> {
    set e | e in links
  }

  /** Freezing keeps the invariant of the block layer. */
  lemma FrozenOpen(t: Txn, s: set<EdgeId>, f: bool)
    requires Open(t) && t.log == []
    ensures Open(t.(g := WithFrozen(t.g, s, f)))
  {
    var t' := t.(g := WithFrozen(t.g, s, f));
    WithFrozenShape(t.g, s, f);
    forall n | n in t.g.nodes
      ensures Owed(t'.g, t.log, t.unrefs, t.outside, n) == Owed(t.g, t.log, t.unrefs, t.outside, n)
    {
    }
    assert RollsBackTo(t', t'.g);
  }

  ghost function LinksFrom(g: Graph, i: Option<NodeId>, base: Option<NodeId>): seq<EdgeId>
    requires WellFormed(g) && AcyclicGraph(g)
  {
    if i.Some? && i.value in g.nodes then Links(g, i.value, base) else []
  }

  /** A walk down the chain has passed `links` and stands at i. */
  ghost predicate Following(g: Graph, n: NodeId, base: Option<NodeId>, links: seq<EdgeId>, i: Option<NodeId>) {
    && WellFormed(g) && AcyclicGraph(g) && n in g.nodes
    && (if i.Some? then i.value in g.nodes && HasBase(g, i.value, base) else base.None?)
    && Links(g, n, base) == links + LinksFrom(g, i, base)
    && forall e | e in links :: e in g.edges
  }

  ghost function StillBelow(g: Graph, i: Option<NodeId>): set<NodeId> {
    if i.Some? then Descendants(ArcsOf(g), i.value) else {}
  }

  lemma FollowingNext(g: Graph, n: NodeId, base: Option<NodeId>, links: seq<EdgeId>, i: Option<NodeId>)
    requires Following(g, n, base, links, i) && i != base
    ensures i.Some? && i.value in g.nodes
    ensures var child := ChainEdge(g, i.value);
            if child.Some? then
              && child.value in g.edges && Following(g, n, base, links + [child.value], g.edges[child.value].bs)
              && StillBelow(g, g.edges[child.value].bs) < StillBelow(g, i)
            else Following(g, n, base, links, None) && StillBelow(g, None) < StillBelow(g, i)
  {
    var child := ChainEdge(g, i.value);
    if child.Some? {
      ChainDescends(g, i.value);
      var below := g.edges[child.value].bs;
      assert links + ([child.value] + LinksFrom(g, below, base)) == links + [child.value] + LinksFrom(g, below, base);
    } else {
      ReachSelf(ArcsOf(g), i.value);
      assert i.value in StillBelow(g, i);
      assert links + [] == links;
    }
  }

  lemma ChainEnds(g: Graph, n: NodeId, base: Option<NodeId>, links: seq<EdgeId>, i: Option<NodeId>)
    requires Following(g, n, base, links, i) && i == base
    ensures Links(g, n, base) == links
  {
    assert LinksFrom(g, i, base) == [];
    assert links + [] == links;
  }
}
