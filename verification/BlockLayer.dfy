/**
 The block layer: the graph, its reference counts, the unrefs that are scheduled but not yet
 run, and the undo log of the open transaction.
 */
module BlockLayer {
  import opened Basics
  import opened Reachability
  import opened BlockGraph
  import opened GraphWalks
  import opened Permissions
  import opened GraphEdits
  import opened Transactions
  import opened GraphChanges
  import opened GraphResults
  import opened BackingChains
  import opened NewNodes
  import opened InheritedOptions

  /** RefreshNode with only the child edges `done` updated so far. */
  function RefreshPart(h: Hooks, g: Graph, n: NodeId, done: set<EdgeId>): Graph {
    g.(edges := map e | e in g.edges ::
         if e in done then WithMasks(g.edges[e], DerivedMasks(h, g, n, e)) else g.edges[e])
  }

  lemma RefreshPartNone(h: Hooks, g: Graph, n: NodeId)
    ensures RefreshPart(h, g, n, {}) == g
  {
    assert RefreshPart(h, g, n, {}).edges == g.edges;
  }

  lemma RefreshPartAll(h: Hooks, g: Graph, n: NodeId)
    requires n in g.nodes && SetsChildren(g, n)
    ensures RefreshPart(h, g, n, g.nodes[n].children) == RefreshNode(h, g, n)
  {
  }

  lemma RefreshPartStep(h: Hooks, g: Graph, n: NodeId, done: set<EdgeId>, c: EdgeId)
    requires c in g.edges
    ensures var g1 := RefreshPart(h, g, n, done);
            var masks := ChildPerm(h, g1, n, g1.edges[c].role, g1.edges[c].bs, CumulativePerm(g, n),
                         CumulativeShared(g, n));
            SetMasks(g1, c, masks.0, masks.1) == RefreshPart(h, g, n, done + {c})
  {
  }

  /** What bdrv_node_refresh_perm asserts of a driver without bdrv_child_perm. */
  lemma ChildlessWithoutPerm(g: Graph, n: NodeId)
    requires WellFormed(g) && n in g.nodes && !g.nodes[n].drv.hasChildPerm
    ensures g.nodes[n].children == {}
  {
    assert SlotsWf(g, n);
  }

  /** What bdrv_child_cb_detach does to node n. */
  function OwnerDetached(g: Graph, e: EdgeId, n: NodeId): Node
    requires e in g.edges && n in g.nodes
  {
    var node := g.nodes[n];
    if g.edges[e].owner != Bds(n) then node
    else node.(children := node.children - {e},
               backing := if node.backing == Some(e) then None else node.backing,
               file := if node.backing != Some(e) && node.file == Some(e) then None else node.file)
  }

  /** What bdrv_child_cb_attach does to node n. */
  function OwnerAttached(g: Graph, e: EdgeId, n: NodeId): Node
    requires e in g.edges && n in g.nodes
  {
    var node := g.nodes[n];
    if g.edges[e].owner != Bds(n) then node
    else
      var slot := SlotOf(node.drv, g.edges[e].role);
      node.(children := node.children + {e},
            backing := if slot.BackingSlot? then Some(e) else node.backing,
            file := if slot.FileSlot? then Some(e) else node.file)
  }

  /** The edge points to `to` and is in its list of parents; the owner does not know yet. */
  function Pointed(g: Graph, e: EdgeId, to: NodeId): Graph
    requires e in g.edges && to in g.nodes
  {
    g.(nodes := g.nodes[to := g.nodes[to].(parents := g.nodes[to].parents + {e})],
      edges := g.edges[e := g.edges[e].(bs := Some(to))])
  }

  /** The slot of a detached edge is really free. */
  lemma DetachedHasRoom(g: Graph, e: EdgeId)
    requires WellFormed(g) && e in g.edges && g.edges[e].bs.None? && SlotFree(g, e)
    ensures g.edges[e].owner.Bds? ==> RoomFor(g, g.edges[e].owner.node, g.edges[e].role)
  {
    if g.edges[e].owner.Bds? {
      assert SlotsWf(g, g.edges[e].owner.node);
    }
  }

  lemma AttachNode(g: Graph, e: EdgeId, to: NodeId, n: NodeId)
    requires e in g.edges && to in g.nodes && n in g.nodes && e !in g.nodes[n].parents
    ensures OwnerAttached(Pointed(g, e, to), e, n) == RedirectNode(g, e, Some(to), n)
  {
    assert n != to ==> g.nodes[n].parents - {e} == g.nodes[n].parents;
  }

  lemma RedirectTwice(g: Graph, e: EdgeId, to: Option<NodeId>)
    requires e in g.edges
    ensures Redirect(Redirect(g, e, None), e, to) == Redirect(g, e, to)
  {
    forall n | n in g.nodes ensures RedirectNode(Redirect(g, e, None), e, to, n) == RedirectNode(g, e, to, n) {
    }
  }

  /** The masks of the children `done` of n are set, those of `todo` are not; t0 is the state before. */
  ghost predicate SettingChildPerms(h: Hooks, t0: Txn, t: Txn, n: NodeId, done: set<EdgeId>, todo: set<EdgeId>) {
    && Open(t) && t.Start() == t0.Start() && RemovedIn(t.log) == RemovedIn(t0.log)
    && n in t0.g.nodes && done + todo == t0.g.nodes[n].children <= t0.g.edges.Keys
    && t.g == RefreshPart(h, t0.g, n, done)
  }

  lemma SettingStart(h: Hooks, t: Txn, n: NodeId)
    requires Open(t) && n in t.g.nodes
    ensures SettingChildPerms(h, t, t, n, {}, t.g.nodes[n].children)
  {
    RefreshPartNone(h, t.g, n);
  }

  lemma SettingStep(h: Hooks, t0: Txn, t: Txn, n: NodeId, done: set<EdgeId>, todo: set<EdgeId>, c: EdgeId)
    requires SettingChildPerms(h, t0, t, n, done, todo) && c in todo
    ensures c in t.g.edges
    ensures var masks := ChildPerm(h, t.g, n, t.g.edges[c].role, t.g.edges[c].bs, CumulativePerm(t0.g, n),
            CumulativeShared(t0.g, n));
            SettingChildPerms(h, t0, DoMasks(t, c, masks.0, masks.1), n, done + {c}, todo - {c})
  {
    assert c in done + todo;
    RefreshPartStep(h, t0.g, n, done, c);
    var masks := ChildPerm(h, t.g, n, t.g.edges[c].role, t.g.edges[c].bs, CumulativePerm(t0.g, n),
                 CumulativeShared(t0.g, n));
    MasksTxn(t, c, masks.0, masks.1, DoMasks(t, c, masks.0, masks.1));
  }

  lemma MasksTxn(t: Txn, e: EdgeId, perm: Perms, shared: Perms, t': Txn)
    requires Open(t) && e in t.g.edges && t' == DoMasks(t, e, perm, shared)
    ensures Open(t') && t'.Start() == t.Start() && RemovedIn(t'.log) == RemovedIn(t.log)
    ensures t'.g == SetMasks(t.g, e, perm, shared)
  {
    RemovedLast(t.log, SetPerm(e, t.g.edges[e].perm, t.g.edges[e].shared));
    MasksOpen(t, e, perm, shared);
  }

  lemma SettingDone(h: Hooks, t0: Txn, t: Txn, n: NodeId, done: set<EdgeId>)
    requires SettingChildPerms(h, t0, t, n, done, {})
    ensures t.g == RefreshPart(h, t0.g, n, t0.g.nodes[n].children)
  {
    assert done == t0.g.nodes[n].children;
  }

  lemma AttachTxn(t: Txn, edge: Edge, to: NodeId, t': Txn)
    requires Open(t) && CanAttach(t.g, t.nextEdge, edge, to)
    requires t' == Noted(t, t.g, Attached(t.nextEdge), Bump(t.refcnt, Some(to), 1), t.nextEdge + 1)
                   .(g := LinkNew(t.g, t.nextEdge, edge, to))
    ensures t' == DoAttach(t, edge, to) && Open(t') && t'.Start() == t.Start() && RemovedIn(t'.log) == RemovedIn(t.log)
    ensures t.nextEdge !in t.g.edges
  {
    RemovedLast(t.log, Attached(t.nextEdge));
    AttachOpen(t, edge, to);
  }

  lemma NotItsOwnParent(g: Graph, g1: Graph, from: NodeId, to: NodeId, e: EdgeId)
    requires WellFormed(g) && e in g.edges && g.edges[e].bs == Some(to) && from != to
    requires Rewired(g, g1, Movable(g, from, to), to)
    ensures e in g1.edges && g1.edges[e] == g.edges[e]
  {
  }

  class Layer {
    var g: Graph
    var refcnt: map<NodeId, int>
    var unrefs: multiset<NodeId>
    var log: seq<Action>
    var nextEdge: EdgeId
    const hooks: Hooks
    ghost var outside: multiset<NodeId>    // references held by callers
    ghost var past: seq<Graph>             // the graph before each record of the log

    constructor (hooks: Hooks)
      ensures Open(Now()) && log == [] && g == Graph(map[], map[], map[]) && this.hooks == hooks
    {
      this.hooks := hooks;
      g, refcnt, unrefs, log, nextEdge := Graph(map[], map[], map[]), map[], multiset{}, [], 0;
      outside, past := multiset{}, [];
      new;
      BetweenTransactions(Now());
    }

    ghost function Now(): Txn
      reads this
    {
      Txn(g, past, refcnt, log, unrefs, outside, nextEdge)
    }

    /** bdrv_new, and the assignment to inherits_from when a child is opened.  The caller gets a reference. */
    method NewNode(n: NodeId, node: Node, from: Option<NodeId>)
      requires Open(Now()) && log == [] && n !in g.nodes && n !in unrefs && n !in outside
      requires NoEdges(node) && (from.Some? ==> from.value in g.nodes)
      modifies this`g, this`refcnt, this`outside
      ensures Open(Now()) && g == WithNode(old(g), n, node, from) && outside == old(outside) + multiset{n}
    {
      ghost var t := Now();
      g, refcnt := WithNode(g, n, node, from), refcnt[n := 1];
      outside := outside + multiset{n};
      NodeAdded(t, n, node, from, Now());
    }

    /** bdrv_root_attach_child: an edge of a block backend or a job.  The caller's reference to the child is
        taken over, whatever the outcome. */
    method RootAttachChild(edge: Edge, child: NodeId, joins: bool) returns (e: Option<EdgeId>)
      requires Open(Now()) && log == [] && child in g.nodes && outside[child] > 0
      requires !edge.owner.Bds? && edge.bs.None? && !edge.frozen
      modifies this
      ensures Open(Now()) && log == [] && outside == old(outside) - multiset{child}
      ensures e.Some? ==> e.value == old(nextEdge)
      ensures RootOutcome(hooks, old(g), old(nextEdge), edge, child, joins, e.Some?, g)
    {
      var r;
      e, r := RootAttachAndRefresh(edge, child, joins);
      WithoutNothing(g);
      Finalize(r);
      ScheduleUnref(child);
      e := if r.Ok? then e else None;
      assert Mentioned(g);
    }

    method RootAttachAndRefresh(edge: Edge, child: NodeId, joins: bool) returns (e: Option<EdgeId>, r: Status)
      requires Open(Now()) && log == [] && child in g.nodes && !edge.owner.Bds? && edge.bs.None? && !edge.frozen
      modifies this`g, this`refcnt, this`log, this`past, this`nextEdge
      ensures Open(Now()) && Now().Start() == old(g) && RemovedIn(log) == {} && (r.Ok? ==> e == Some(old(nextEdge)))
      ensures RootPromised(hooks, old(g), old(nextEdge), edge, child, joins, r.Ok?, if r.Ok? then g else old(g))
    {
      e := RootAttachPart(edge, child, joins);
      if e.None? {
        return e, Einval;
      }
      r := RefreshPerms([child]);
    }

    method RootAttachPart(edge: Edge, child: NodeId, joins: bool) returns (e: Option<EdgeId>)
      requires Open(Now()) && log == [] && child in g.nodes && !edge.owner.Bds? && edge.bs.None? && !edge.frozen
      modifies this`g, this`refcnt, this`log, this`past, this`nextEdge
      ensures Open(Now()) && Now().Start() == old(g) && RemovedIn(log) == {}
      ensures e == (if joins then Some(old(nextEdge)) else None)
      ensures e.Some? ==> child in g.nodes && RootReady(hooks, old(Now()), g, edge, child)
      ensures e.None? ==> RootPromised(hooks, old(g), old(nextEdge), edge, child, joins, false, old(g))
    {
      ghost var t0 := Now();
      e := AttachChildCommon(edge, child, joins);
      if e.None? {
        SameIsHarmless(g);
      } else {
        RootIsReady(hooks, t0, Now(), edge, child);
      }
    }

    // -------------------------------------------------------------- permissions

    method CumulativeMasks(n: NodeId) returns (perm: Perms, shared: Perms)
      requires WellFormed(g) && n in g.nodes
      ensures perm == CumulativePerm(g, n) && shared == CumulativeShared(g, n)
    {
      perm, shared := {}, PERM_ALL;
      var todo := g.nodes[n].parents;
      while todo != {}
        invariant todo <= g.nodes[n].parents
        invariant perm == set e, p | e in g.nodes[n].parents - todo && p in g.edges[e].perm :: p
        invariant shared == set p | p in PERM_ALL && forall e | e in g.nodes[n].parents - todo :: p in g.edges[e].shared
        decreases todo
      {
        var c :| c in todo;
        perm := perm + g.edges[c].perm;
        shared := shared * g.edges[c].shared;
        todo := todo - {c};
      }
      assert g.nodes[n].parents - todo == Parents(g, n);
    }

    method ParentPermsConflict(n: NodeId) returns (r: bool)
      requires WellFormed(g) && n in g.nodes
      ensures r <==> Conflict(g, n)
    {
      var parents := g.nodes[n].parents;
      var todo := parents;
      while todo != {}
        invariant todo <= parents
        invariant forall a, b | a in parents - todo && b in parents && a != b :: g.edges[b].perm <= g.edges[a].shared
        decreases todo
      {
        var a :| a in todo;
        var todoB := parents;
        while todoB != {}
          invariant todoB <= parents
          invariant forall b | b in parents - todoB && a != b :: g.edges[b].perm <= g.edges[a].shared
          decreases todoB
        {
          var b :| b in todoB;
          todoB := todoB - {b};
          if a != b && !(g.edges[b].perm <= g.edges[a].shared) {
            return true;
          }
        }
        todo := todo - {a};
      }
      return false;
    }

    method ChildSetPerm(e: EdgeId, perm: Perms, shared: Perms)
      requires e in g.edges
      modifies this`g, this`log, this`past
      ensures Now() == DoMasks(old(Now()), e, perm, shared)
    {
      var a := SetPerm(e, g.edges[e].perm, g.edges[e].shared);
      log, past := log + [a], past + [g];
      g := SetMasks(g, e, perm, shared);
    }

    /** Asks the driver; its answer is recorded for the end of the transaction. */
    method DrvSetPerm(n: NodeId, perm: Perms, shared: Perms) returns (r: Status)
      requires Open(Now())
      modifies this`log, this`past
      ensures Open(Now()) && Now().Start() == old(Now().Start()) && RemovedIn(log) == old(RemovedIn(log))
      ensures r.Ok? <==> hooks.checkPerm(n, perm, shared)
      ensures log == if r.Ok? then old(log) + [DriverPerm(n)] else old(log)
    {
      if !hooks.checkPerm(n, perm, shared) {
        return DriverError;
      }
      AddMarker(DriverPerm(n));
      return Ok;
    }

    method AddMarker(a: Action)
      requires Open(Now()) && IsMarker(Now(), a)
      modifies this`log, this`past
      ensures Open(Now()) && Now().Start() == old(Now().Start()) && log == old(log) + [a]
      ensures RemovedIn(log) == old(RemovedIn(log)) + if a.Removed? then {a.e} else {}
    {
      ghost var t := Now();
      log, past := log + [a], past + [g];
      RemovedLast(t.log, a);
      MarkerOpen(t, a);
    }

    /** Checks the node against its cumulative masks and passes them on to its children. */
    method NodeRefreshPerm(n: NodeId) returns (r: Status)
      requires Open(Now()) && n in g.nodes
      modifies this`g, this`log, this`past
      ensures Open(Now()) && Now().Start() == old(Now().Start()) && RemovedIn(log) == old(RemovedIn(log))
      ensures r.Ok? <==> NodeAccepts(hooks, old(g), n)
      ensures g == if r.Ok? then RefreshNode(hooks, old(g), n) else old(g)
    {
      var perm, shared := CumulativeMasks(n);
      if perm * {Write, WriteUnchanged} != {} && !hooks.writable(n) {
        return Eperm;
      }
      if perm * {Write, WriteUnchanged} != {} && Resize !in perm && !hooks.aligned(n) {
        return Eperm;
      }
      if !g.nodes[n].hasDrv {
        return Ok;
      }
      r := DrvSetPerm(n, perm, shared);
      if !r.Ok? {
        return;
      }
      if !g.nodes[n].drv.hasChildPerm {
        ChildlessWithoutPerm(g, n);
        return Ok;
      }
      RefreshPartAll(hooks, g, n);
      SetChildPerms(n, perm, shared);
      return Ok;
    }

    method SetChildPerms(n: NodeId, perm: Perms, shared: Perms)
      requires Open(Now()) && n in g.nodes && perm == CumulativePerm(g, n) && shared == CumulativeShared(g, n)
      modifies this`g, this`log, this`past
      ensures Open(Now()) && Now().Start() == old(Now().Start()) && RemovedIn(log) == old(RemovedIn(log))
      ensures g == RefreshPart(hooks, old(g), n, old(g).nodes[n].children)
    {
      ghost var t0, done := Now(), {};
      var todo := g.nodes[n].children;
      SettingStart(hooks, t0, n);
      while todo != {}
        invariant SettingChildPerms(hooks, t0, Now(), n, done, todo)
        decreases todo
      {
        var c :| c in todo;
        SettingStep(hooks, t0, Now(), n, done, todo, c);
        var masks := ChildPerm(hooks, g, n, g.edges[c].role, g.edges[c].bs, perm, shared);
        ChildSetPerm(c, masks.0, masks.1);
        todo, done := todo - {c}, done + {c};
      }
      SettingDone(hooks, t0, Now(), n, done);
    }

    /** Refreshes a topologically sorted list of nodes. */
    method DoRefreshPerms(list: seq<NodeId>) returns (r: Status)
      requires Open(Now()) && forall n | n in list :: n in g.nodes
      modifies this`g, this`log, this`past
      ensures Open(Now()) && Now().Start() == old(Now().Start()) && RemovedIn(log) == old(RemovedIn(log))
      ensures r.Ok? <==> Refresh(hooks, old(g), list).Some?
      ensures r.Ok? ==> g == Refresh(hooks, old(g), list).value
    {
      for i := 0 to |list|
        invariant Open(Now()) && Now().Start() == old(Now().Start()) && RemovedIn(log) == old(RemovedIn(log))
        invariant forall n | n in list :: n in g.nodes
        invariant Refresh(hooks, g, list[i..]) == Refresh(hooks, old(g), list)
      {
        assert list[i..][1..] == list[i + 1..];
        var conflict := ParentPermsConflict(list[i]);
        if conflict {
          return Einval;
        }
        r := NodeRefreshPerm(list[i]);
        if !r.Ok? {
          return;
        }
      }
      return Ok;
    }

    /** bdrv_list_refresh_perms, and bdrv_refresh_perms for a single root.  Fails only if there are no
        masks that make the subtrees of the roots consistent. */
    method RefreshPerms(roots: seq<NodeId>) returns (r: Status)
      requires Open(Now()) && forall x | x in roots :: x in g.nodes
      modifies this`g, this`log, this`past
      ensures Open(Now()) && Now().Start() == old(Now().Start()) && RemovedIn(log) == old(RemovedIn(log))
      ensures r.Ok? ==> RefreshedTo(hooks, old(g), roots, g)
      ensures !r.Ok? ==> !Refreshable(hooks, old(g), roots)
    {
      var list := SortSubtrees(g, roots);
      ghost var g0 := g;
      r := DoRefreshPerms(list);
      forall g' ensures Refresh(hooks, g0, list) == Some(g') <==> Refreshed(hooks, g0, roots, g') {
        RefreshSubtrees(hooks, g0, roots, list, g');
      }
    }

    // -------------------------------------------------------------- edits of the graph

    /** The list and slot updates of an edge owned by a node when it leaves or reaches a target. */
    method OwnerDetach(e: EdgeId)
      requires e in g.edges && (g.edges[e].owner.Bds? ==> g.edges[e].owner.node in g.nodes)
      modifies this`g
      ensures g.edges == old(g.edges) && g.inherits == old(g.inherits)
      ensures g.nodes == map n | n in old(g.nodes) :: OwnerDetached(old(g), e, n)
    {
      if g.edges[e].owner.Bds? {
        var p := g.edges[e].owner.node;
        var node := g.nodes[p];
        node := node.(children := node.children - {e});
        if node.backing == Some(e) {
          node := node.(backing := None);
        } else if node.file == Some(e) {
          node := node.(file := None);
        }
        g := g.(nodes := g.nodes[p := node]);
      }
    }

    method OwnerAttach(e: EdgeId)
      requires e in g.edges && (g.edges[e].owner.Bds? ==> RoomFor(g, g.edges[e].owner.node, g.edges[e].role))
      modifies this`g
      ensures g.edges == old(g.edges) && g.inherits == old(g.inherits)
      ensures g.nodes == map n | n in old(g.nodes) :: OwnerAttached(old(g), e, n)
    {
      if g.edges[e].owner.Bds? {
        var p := g.edges[e].owner.node;
        var node, role := g.nodes[p], g.edges[e].role;
        node := node.(children := node.children + {e});
        if node.drv.isFilter || role.filtered {
          if role.primary {
            if node.drv.filteredChildIsBacking {
              node := node.(backing := Some(e));
            } else {
              node := node.(file := Some(e));
            }
          }
        } else if role.cow {
          node := node.(backing := Some(e));
        } else if role.primary {
          node := node.(file := Some(e));
        }
        g := g.(nodes := g.nodes[p := node]);
      }
    }

    method Detach(e: EdgeId)
      requires WellFormed(g) && e in g.edges && g.edges[e].bs.Some?
      modifies this`g
      ensures g == Redirect(old(g), e, None)
    {
      ghost var g0 := g;
      assert EdgeWf(g, e);
      var was := g.edges[e].bs.value;
      OwnerDetach(e);
      g := g.(nodes := g.nodes[was := g.nodes[was].(parents := g.nodes[was].parents - {e})]);
      g := g.(edges := g.edges[e := g.edges[e].(bs := None)]);
      forall n | n in g0.nodes ensures g.nodes[n] == RedirectNode(g0, e, None, n) {
        assert SlotsWf(g0, n);
      }
    }

    method Attach(e: EdgeId, to: NodeId)
      requires WellFormed(g) && e in g.edges && g.edges[e].bs.None? && SlotFree(g, e) && to in g.nodes
      modifies this`g
      ensures g == Redirect(old(g), e, Some(to))
    {
      ghost var g0 := g;
      DetachedHasRoom(g, e);
      g := Pointed(g, e, to);
      OwnerAttach(e);
      forall n | n in g0.nodes ensures g.nodes[n] == RedirectNode(g0, e, Some(to), n) {
        AttachNode(g0, e, to, n);
      }
    }

    /** Moves the edge without touching permissions or references. */
    method ReplaceChildNoperm(e: EdgeId, to: Option<NodeId>)
      requires WellFormed(g) && e in g.edges && !g.edges[e].frozen && g.edges[e].bs != to && SlotFree(g, e)
      requires to.Some? ==> to.value in g.nodes
      modifies this`g
      ensures g == Redirect(old(g), e, to)
    {
      if g.edges[e].bs.Some? {
        RedirectTwice(g, e, to);
        RedirectWf(g, e, None);
        RedirectKeepsSlotFree(g, e, None);
        Detach(e);
      }
      if to.Some? {
        Attach(e, to.value);
      }
    }

    /** Moves the edge as part of the transaction; the reference to the old target goes into the record. */
    method ReplaceChildTran(e: EdgeId, to: Option<NodeId>)
      requires Open(Now()) && CanReplace(g, e, to)
      modifies this`g, this`refcnt, this`log, this`past, this`nextEdge
      ensures Now() == DoReplace(old(Now()), e, to) && Open(Now()) && Now().Start() == old(Now().Start())
      ensures RemovedIn(log) == old(RemovedIn(log))
    {
      ghost var t := Now();
      AttachedHasSlot(g, e);
      Record(Replaced(e, g.edges[e].bs), to, nextEdge);
      ReplaceChildNoperm(e, to);
      ReplaceTxn(t, e, to, Now());
    }

    /** Adds a record to the log, and takes a reference to the node that the edge will point to. */
    method Record(a: Action, to: Option<NodeId>, next: EdgeId)
      modifies this`refcnt, this`log, this`past, this`nextEdge
      ensures Now() == Noted(old(Now()), g, a, Bump(old(refcnt), to, 1), next)
    {
      log, past, refcnt, nextEdge := log + [a], past + [g], Bump(refcnt, to, 1), next;
    }

    /** Takes the edge out of the graph; it is freed when the transaction commits. */
    method RemoveChild(e: EdgeId)
      requires Open(Now()) && e in g.edges && !g.edges[e].frozen && g.edges[e].bs.Some?
      modifies this`g, this`refcnt, this`log, this`past, this`nextEdge
      ensures Open(Now()) && Now().Start() == old(Now().Start()) && nextEdge == old(nextEdge)
      ensures g == Redirect(old(g), e, None) && RemovedIn(log) == old(RemovedIn(log)) + {e}
    {
      ReplaceChildTran(e, None);
      AddMarker(Removed(e));
    }

    /** Creates an edge to `child`, unless no AioContext suits both ends. */
    method AttachChildCommon(edge: Edge, child: NodeId, joins: bool) returns (e: Option<EdgeId>)
      requires Open(Now()) && CanAttach(g, nextEdge, edge, child)
      modifies this`g, this`refcnt, this`log, this`past, this`nextEdge
      ensures Now() == if joins then DoAttach(old(Now()), edge, child) else old(Now())
      ensures Open(Now()) && Now().Start() == old(Now().Start()) && RemovedIn(log) == old(RemovedIn(log))
      ensures e == (if joins then Some(old(nextEdge)) else None) && old(nextEdge) !in old(g).edges
    {
      if !joins {
        return None;
      }
      ghost var t := Now();
      e := Some(nextEdge);
      AddEdgeWf(g, nextEdge, edge);
      Record(Attached(nextEdge), Some(child), nextEdge + 1);
      LinkEdge(e.value, edge, child);
      AttachTxn(t, edge, child, Now());
    }

    method LinkEdge(e: EdgeId, edge: Edge, child: NodeId)
      requires WellFormed(AddEdge(g, e, edge)) && SlotFree(AddEdge(g, e, edge), e)
      requires edge.bs.None? && !edge.frozen && child in g.nodes
      modifies this`g
      ensures g == LinkNew(old(g), e, edge, child)
    {
      g := AddEdge(g, e, edge);
      ReplaceChildNoperm(e, Some(child));
    }

    /** Fails if the new edge would close a loop or no AioContext suits both ends. */
    method AttachChildNoperm(parent: NodeId, child: NodeId, role: Role, joins: bool) returns (e: Option<EdgeId>)
      requires Open(Now()) && parent in g.nodes && child in g.nodes && g.nodes[parent].hasDrv
      requires RoomFor(g, parent, role) || Reach(ArcsOf(g), child, parent)
      modifies this`g, this`refcnt, this`log, this`past, this`nextEdge
      ensures Open(Now()) && Now().Start() == old(Now().Start()) && RemovedIn(log) == old(RemovedIn(log))
      ensures e == if Reach(ArcsOf(old(g)), child, parent) || !joins then None else Some(old(nextEdge))
      ensures g == if e.None? then old(g) else Linked(hooks, old(g), old(nextEdge), parent, child, role)
      ensures old(nextEdge) !in old(g).edges
    {
      var loops := RecurseHasChild(g, child, parent);
      if loops {
        return None;
      }
      var perm, shared := CumulativeMasks(parent);
      var masks := ChildPerm(hooks, g, parent, role, Some(child), perm, shared);
      RoomIsFree(hooks, g, nextEdge, parent, child, role);
      e := AttachChildCommon(Edge(Bds(parent), role, None, masks.0, masks.1, false, false), child, joins);
    }

    /** Moves the parents of `from` to `to`, except where that would close a loop or the parent stays. */
    method ReplaceNodeNoperm(from: NodeId, to: NodeId, autoSkip: bool) returns (r: Status)
      requires Open(Now()) && from in g.nodes && to in g.nodes && from != to
      modifies this`g, this`refcnt, this`log, this`past, this`nextEdge
      ensures Open(Now()) && Now().Start() == old(Now().Start()) && RemovedIn(log) == old(RemovedIn(log))
      ensures nextEdge == old(nextEdge)
      ensures r.Ok? <==> CanReplaceNode(old(g), from, to, autoSkip)
      ensures r.Ok? ==> Rewired(old(g), g, Movable(old(g), from, to), to)
    {
      ghost var t0 := Now();
      var todo := g.nodes[from].parents;
      MovingStart(t0, from, to, autoSkip);
      while todo != {}
        invariant Moving(t0, Now(), from, to, autoSkip, todo)
        decreases todo
      {
        var c :| c in todo;
        MovingNext(t0, Now(), from, to, autoSkip, todo, c);
        var move := ShouldUpdateChild(g, c, to);
        if move {
          if g.edges[c].frozen {
            return Eperm;
          }
          ReplaceChildTran(c, Some(to));
        } else if !autoSkip {
          return Einval;
        }
        todo := todo - {c};
      }
      MovingDone(t0, Now(), from, to, autoSkip);
      return Ok;
    }

    // -------------------------------------------------------------- inherits_from

    /** bdrv_set_inherits_from. */
    method ChangeInherits(n: NodeId, from: Option<NodeId>)
      requires Open(Now()) && CanInherit(g, n, from)
      modifies this`g, this`log, this`past
      ensures Now() == DoInherits(old(Now()), n, from)
      ensures Open(Now()) && Now().Start() == old(Now().Start()) && RemovedIn(log) == old(RemovedIn(log))
    {
      ghost var t := Now();
      log, past := log + [Inherited(n, InheritsOf(g.inherits, n))], past + [g];
      g := SetInherits(g, n, from);
      InheritsOpen(t, n, from);
    }

    /** bdrv_inherits_from_recursive: whether following inherits_from from `child` leads to `parent`. */
    method InheritsFrom(child: Option<NodeId>, parent: NodeId) returns (r: bool)
      requires InheritsWf(g)
      ensures r <==> child.Some? && Reach(Lineage(g.inherits), child.value, parent)
    {
      var c := child;
      while c.Some? && c.value != parent
        invariant child.Some? && Reach(Lineage(g.inherits), child.value, parent) <==>
                  c.Some? && Reach(Lineage(g.inherits), c.value, parent)
        decreases c.Some?, if c.Some? then Descendants(Lineage(g.inherits), c.value) else {}
      {
        LineageNext(g.inherits, c.value, parent);
        if c.value in g.inherits {
          DescendantsShrink(Lineage(g.inherits), c.value, g.inherits[c.value]);
        }
        c := InheritsOf(g.inherits, c.value);
      }
      if c.Some? {
        ReachSelf(Lineage(g.inherits), parent);
      }
      return c.Some?;
    }

    /** The loop of bdrv_unset_inherits_from: another child edge of root leads to the same node. */
    method HasOtherWay(root: NodeId, e: EdgeId) returns (r: bool)
      requires WellFormed(g) && root in g.nodes && e in g.edges && g.edges[e].bs.Some?
      ensures r <==> OtherWay(g, root, e, g.edges[e].bs.value)
    {
      var todo := g.nodes[root].children;
      while todo != {}
        invariant todo <= g.nodes[root].children
        invariant forall c | c in g.nodes[root].children - todo :: c == e || g.edges[c].bs != g.edges[e].bs
        decreases todo
      {
        var c :| c in todo;
        if c != e && g.edges[c].bs == g.edges[e].bs {
          assert c in Children(g, root);
          return true;
        }
        todo := todo - {c};
      }
      return false;
    }

    /** bdrv_unset_inherits_from, for the child edge `skip` of root or an edge below it. */
    method UnsetInherits(root: NodeId, e: EdgeId, ghost skip: EdgeId)
      requires Open(Now()) && Unsetting(g, root, skip, e)
      modifies this`g, this`log, this`past
      ensures Open(Now()) && Now().Start() == old(Now().Start()) && RemovedIn(log) == old(RemovedIn(log))
      ensures g == old(g).(inherits := Orphaned(old(g).inherits,
              Disowned(old(g), root, skip, old(g).edges[e].bs.value)))
      decreases Descendants(ArcsOf(g), g.edges[e].bs.value)
    {
      ghost var t0 := Now();
      var y := g.edges[e].bs.value;
      SameOtherWay(g, root, skip, e);
      if InheritsOf(g.inherits, y) == Some(root) {
        var other := HasOtherWay(root, e);
        if !other {
          ChangeInherits(y, None);
        }
      }
      ClearingStart(t0, Now(), root, skip, e);
      var todo := g.nodes[y].children;
      while todo != {}
        invariant Clearing(t0, Now(), root, skip, e, y, todo)
        decreases todo
      {
        var c :| c in todo;
        ClearingAt(t0, Now(), root, skip, e, y, todo, c);
        UnsetInherits(root, c, skip);
        ClearingNext(t0, Now(), root, skip, e, y, todo, c);
        todo := todo - {c};
      }
      ClearingDone(t0, Now(), root, skip, e, y);
    }

    /** Replaces the backing or the file child of a node, or takes it away. */
    method SetFileOrBackingNoperm(n: NodeId, child: Option<NodeId>, isBacking: bool, joins: bool) returns (r: Status)
      requires Open(Now()) && n in g.nodes && (child.Some? ==> child.value in g.nodes && SlotUsable(g, n, isBacking))
      modifies this`g, this`refcnt, this`log, this`past, this`nextEdge
      ensures Open(Now()) && Now().Start() == old(Now().Start()) && old(nextEdge) !in old(g).edges
      ensures r == if !SlotStatus(old(g), n, isBacking).Ok? then SlotStatus(old(g), n, isBacking)
                   else if child.Some? && (Reach(ArcsOf(old(g)), child.value, n) || !joins) then Einval else Ok
      ensures r.Ok? ==> g == SlotSet(hooks, old(g), old(nextEdge), n, child, isBacking)
      ensures r.Ok? ==> RemovedIn(log) == old(RemovedIn(log)) + SlotGone(old(g), n, isBacking)
    {
      var update := InheritsFrom(child, n);
      var drv, slot := g.nodes[n].drv, if isBacking then g.nodes[n].backing else g.nodes[n].file;
      SlotFacts(g, n, isBacking, child);
      if !g.nodes[n].hasDrv {
        return Einval;
      }
      if slot.Some? && g.edges[slot.value].frozen {
        return Eperm;
      }
      if isBacking && !drv.isFilter && !drv.supportsBacking {
        return Einval;
      }
      var role;
      if drv.isFilter {
        role := ROLE_FILTERED;
      } else if isBacking {
        role := ROLE_COW;
      } else {
        if slot.None? {
          return Einval;
        }
        role := g.edges[slot.value].role;
      }
      TakeSlot(n, slot, isBacking);
      if child.None? {
        return Ok;
      }
      SlotIsReady(hooks, old(g), nextEdge, n, child.value, isBacking, g);
      r := GiveSlot(n, child.value, role, isBacking, joins, update, old(g));
    }

    /** Puts the new child into the slot, which was taken out of g0. */
    method GiveSlot(n: NodeId, child: NodeId, role: Role, isBacking: bool, joins: bool, update: bool, ghost g0: Graph)
                    returns (r: Status)
      requires Open(Now()) && SlotReady(hooks, g0, nextEdge, n, child, role, isBacking, update, g)
      modifies this`g, this`refcnt, this`log, this`past, this`nextEdge
      ensures Open(Now()) && Now().Start() == old(Now().Start()) && RemovedIn(log) == old(RemovedIn(log))
      ensures r == if Reach(ArcsOf(g0), child, n) || !joins then Einval else Ok
      ensures r.Ok? ==> g == SlotSet(hooks, g0, old(nextEdge), n, Some(child), isBacking)
    {
      var e := AttachChildNoperm(n, child, role, joins);
      if e.None? {
        return Einval;
      }
      if update {
        ChangeInherits(child, Some(n));
      }
      return Ok;
    }

    /** Takes the child in the slot away, and lets the nodes below it no longer inherit from n. */
    method TakeSlot(n: NodeId, slot: Option<EdgeId>, isBacking: bool)
      requires Open(Now()) && n in g.nodes && slot == SlotEdge(g, n, isBacking)
      requires slot.Some? ==>
                 && slot.value in g.edges && g.edges[slot.value].owner == Bds(n)
                 && g.edges[slot.value].bs.Some? && !g.edges[slot.value].frozen
      modifies this`g, this`refcnt, this`log, this`past, this`nextEdge
      ensures Open(Now()) && Now().Start() == old(Now().Start()) && nextEdge == old(nextEdge)
      ensures SlotTaken(old(g), n, isBacking, g)
      ensures RemovedIn(log) == old(RemovedIn(log)) + SlotGone(old(g), n, isBacking)
    {
      if slot.Some? {
        UnsettingSlot(g, n, slot.value);
        UnsetInherits(n, slot.value, slot.value);
        RedirectAside(old(g), g.inherits, slot.value, None);
        RemoveChild(slot.value);
      } else {
        assert Orphaned(g.inherits, {}) == g.inherits;
      }
    }

    // -------------------------------------------------------------- the end of a transaction

    method AbortReplace(e: EdgeId, was: Option<NodeId>)
      requires WellFormed(g) && CanUndo(g, Replaced(e, was))
      modifies this`g, this`refcnt
      ensures g == Redirect(old(g), e, was) && refcnt == Bump(old(refcnt), old(g.edges[e].bs), -1)
    {
      var now := g.edges[e].bs;
      ReplaceChildNoperm(e, was);
      refcnt := Bump(refcnt, now, -1);
    }

    method AbortAttach(e: EdgeId)
      requires WellFormed(g) && CanUndo(g, Attached(e))
      modifies this`g, this`unrefs
      ensures g == Undo(old(g), Attached(e)) && unrefs == old(unrefs) + multiset{old(g.edges[e].bs.value)}
    {
      var bs := g.edges[e].bs.value;
      AttachedHasSlot(g, e);
      ReplaceChildNoperm(e, None);
      unrefs := unrefs + multiset{bs};
      g := DropEdge(g, e);
    }

    /** Takes the newest record off the log and runs its abort callback. */
    method AbortLast()
      requires WellFormed(g) && |past| == |log| > 0 && CanUndo(g, log[|log| - 1])
      modifies this`g, this`refcnt, this`unrefs, this`log, this`past
      ensures Now() == Undone(old(Now()))
    {
      var a := log[|log| - 1];
      log, past := log[..|log| - 1], past[..|past| - 1];
      match a {
        case SetPerm(e, perm, shared) => g := SetMasks(g, e, perm, shared);
        case Replaced(e, was) => AbortReplace(e, was);
        case Attached(e) => AbortAttach(e);
        case Removed(_) =>
        case DriverPerm(_) =>
        case Inherited(n, before) => g := SetInherits(g, n, before);
      }
    }

    /** tran_abort: the graph is back to what it was when the transaction began. */
    method Abort()
      requires Open(Now())
      modifies this`g, this`refcnt, this`unrefs, this`log, this`past
      ensures Open(Now()) && log == [] && g == old(Now().Start())
    {
      while log != []
        invariant Sound(Now()) && Now().Start() == old(Now().Start())
        decreases |log|
      {
        UndoneSound(Now());
        AbortLast();
      }
      BetweenTransactions(Now());
    }

    /** tran_commit: removed edges are freed and the references in the records are dropped later. */
    method Commit()
      requires Open(Now())
      modifies this`g, this`unrefs, this`log, this`past
      ensures Open(Now()) && log == [] && g == Without(old(g), RemovedIn(old(log)))
      ensures unrefs == old(unrefs) + Held(old(log))
    {
      past := [];
      while log != []
        invariant Closing(Now()) && past == []
        invariant Without(g, RemovedIn(log)) == old(Without(g, RemovedIn(log)))
        invariant unrefs + Held(log) == old(unrefs + Held(log))
        decreases |log|
      {
        SettledClosing(Now());
        CommitLast();
      }
      WithoutNothing(g);
      BetweenTransactions(Now());
    }

    /** Takes the newest record off the log and runs its commit callback. */
    method CommitLast()
      requires log != [] && past == []
      modifies this`g, this`unrefs, this`log
      ensures Now() == Settled(old(Now()))
    {
      var a := log[|log| - 1];
      log := log[..|log| - 1];
      match a {
        case Replaced(_, was) => if was.Some? { unrefs := unrefs + multiset{was.value}; }
        case Removed(e) => g := DropEdge(g, e);
        case SetPerm(_, _, _) =>
        case Attached(_) =>
        case DriverPerm(_) =>
        case Inherited(_, _) =>
      }
    }

    method Finalize(r: Status)
      requires Open(Now())
      modifies this`g, this`refcnt, this`unrefs, this`log, this`past
      ensures Open(Now()) && log == []
      ensures g == if r.Ok? then Without(old(g), RemovedIn(old(log))) else old(Now().Start())
    {
      if r.Ok? {
        Commit();
      } else {
        Abort();
      }
    }

    /** The caller's reference becomes an unref that will run later. */
    method ScheduleUnref(n: NodeId)
      requires Open(Now()) && log == [] && outside[n] > 0
      modifies this`unrefs, this`outside
      ensures Open(Now()) && outside == old(outside) - multiset{n} && unrefs == old(unrefs) + multiset{n}
    {
      ghost var t := Now();
      unrefs := unrefs + multiset{n};
      outside := outside - multiset{n};
      ReferencePassedOn(t, n);
    }

    // -------------------------------------------------------------- operations

    /** bdrv_attach_child.  The caller's reference to the child is taken over, whatever the outcome. */
    method AttachChild(parent: NodeId, child: NodeId, role: Role, joins: bool) returns (e: Option<EdgeId>)
      requires Open(Now()) && log == [] && parent in g.nodes && child in g.nodes && g.nodes[parent].hasDrv
      requires RoomFor(g, parent, role) || Reach(ArcsOf(g), child, parent)
      requires outside[child] > 0
      modifies this
      ensures Open(Now()) && log == [] && outside == old(outside) - multiset{child}
      ensures e.Some? ==> e.value == old(nextEdge)
      ensures AttachOutcome(hooks, old(g), old(nextEdge), parent, child, role, joins, e.Some?, g)
    {
      var r;
      e, r := AttachAndRefresh(parent, child, role, joins);
      WithoutNothing(g);
      Finalize(r);
      ScheduleUnref(child);
      e := if r.Ok? then e else None;
      assert Mentioned(g);
    }

    method AttachAndRefresh(parent: NodeId, child: NodeId, role: Role, joins: bool)
                            returns (e: Option<EdgeId>, r: Status)
      requires Open(Now()) && log == [] && parent in g.nodes && child in g.nodes && g.nodes[parent].hasDrv
      requires RoomFor(g, parent, role) || Reach(ArcsOf(g), child, parent)
      modifies this`g, this`refcnt, this`log, this`past, this`nextEdge
      ensures Open(Now()) && Now().Start() == old(g) && RemovedIn(log) == {} && (r.Ok? ==> e == Some(old(nextEdge)))
      ensures AttachPromised(hooks, old(g), old(nextEdge), parent, child, role, joins, r.Ok?,
              if r.Ok? then g else old(g))
    {
      e := AttachPart(parent, child, role, joins);
      if e.None? {
        return e, Einval;
      }
      r := RefreshPerms([parent]);
    }

    method AttachPart(parent: NodeId, child: NodeId, role: Role, joins: bool) returns (e: Option<EdgeId>)
      requires Open(Now()) && log == [] && parent in g.nodes && child in g.nodes && g.nodes[parent].hasDrv
      requires RoomFor(g, parent, role) || Reach(ArcsOf(g), child, parent)
      modifies this`g, this`refcnt, this`log, this`past, this`nextEdge
      ensures Open(Now()) && Now().Start() == old(g) && RemovedIn(log) == {} && e in {None, Some(old(nextEdge))}
      ensures e.Some? ==> joins && parent in g.nodes && AttachReady(hooks, old(Now()), g, parent, child, role)
      ensures e.None? ==> AttachPromised(hooks, old(g), old(nextEdge), parent, child, role, joins, false, old(g))
    {
      ghost var t0 := Now();
      e := AttachChildNoperm(parent, child, role, joins);
      if e.None? {
        AttachRefused(hooks, t0, parent, child, role, joins);
      } else {
        AttachIsReady(hooks, t0, Now(), parent, child, role);
      }
    }

    /** bdrv_set_backing_hd. */
    method SetBackingHd(n: NodeId, backing: Option<NodeId>, joins: bool) returns (r: Status)
      requires Open(Now()) && log == [] && n in g.nodes
      requires backing.Some? ==> backing.value in g.nodes && SlotUsable(g, n, true)
      modifies this`g, this`refcnt, this`unrefs, this`log, this`past, this`nextEdge
      ensures Open(Now()) && log == []
      ensures SetBackingOutcome(hooks, old(g), old(nextEdge), n, backing, joins, r.Ok?, g)
    {
      r := SetBackingAndRefresh(n, backing, joins);
      Finalize(r);
    }

    method SetBackingAndRefresh(n: NodeId, backing: Option<NodeId>, joins: bool) returns (r: Status)
      requires Open(Now()) && log == [] && n in g.nodes
      requires backing.Some? ==> backing.value in g.nodes && SlotUsable(g, n, true)
      modifies this`g, this`refcnt, this`log, this`past, this`nextEdge
      ensures Open(Now()) && Now().Start() == old(g)
      ensures SetBackingOutcome(hooks, old(g), old(nextEdge), n, backing, joins, r.Ok?,
              if r.Ok? then Without(g, RemovedIn(log)) else old(g))
    {
      ghost var t0 := Now();
      r := SetFileOrBackingNoperm(n, backing, true, joins);
      if !r.Ok? {
        SetBackingRefused(hooks, t0, n, backing, joins);
        return;
      }
      ghost var t1 := Now();
      r := RefreshPerms([n]);
      assert RemovedIn(log) == SlotGone(t0.g, n, true) && Mentioned(g);
      SetBackingResult(hooks, t0, t1, n, backing, joins, r.Ok?, if r.Ok? then g else t0.g);
    }

    /** bdrv_replace_node, which skips the parents that should not move, and the variant that refuses then. */
    method ReplaceNode(from: NodeId, to: NodeId, autoSkip: bool) returns (r: Status)
      requires Open(Now()) && log == [] && from in g.nodes && to in g.nodes && from != to
      modifies this`g, this`refcnt, this`unrefs, this`log, this`past, this`nextEdge
      ensures Open(Now()) && log == []
      ensures ReplaceOutcome(hooks, old(g), from, to, autoSkip, r.Ok?, g)
    {
      r := ReplaceAndRefresh(from, to, autoSkip);
      WithoutNothing(g);
      Finalize(r);
    }

    method ReplaceAndRefresh(from: NodeId, to: NodeId, autoSkip: bool) returns (r: Status)
      requires Open(Now()) && log == [] && from in g.nodes && to in g.nodes && from != to
      modifies this`g, this`refcnt, this`log, this`past, this`nextEdge
      ensures Open(Now()) && Now().Start() == old(g) && RemovedIn(log) == {}
      ensures ReplaceOutcome(hooks, old(g), from, to, autoSkip, r.Ok?, if r.Ok? then g else old(g))
    {
      ghost var t0 := Now();
      r := ReplaceNodeNoperm(from, to, autoSkip);
      if !r.Ok? {
        return;
      }
      ghost var t1 := Now();
      r := RefreshPerms([from, to]);
      assert Mentioned(g);
      ReplaceResult(hooks, t0, t1, from, to, autoSkip, r.Ok?, if r.Ok? then g else t0.g);
    }

    /** bdrv_drop_filter: moves the parents of the filter to its child and takes the child away from it. */
    method DropFilter(bs: NodeId) returns (r: Status)
      requires Open(Now()) && log == [] && bs in g.nodes && ChainEdge(g, bs).Some?
      requires ChainEdge(g, bs).value in g.edges && !g.edges[ChainEdge(g, bs).value].frozen
      modifies this`g, this`refcnt, this`unrefs, this`log, this`past, this`nextEdge
      ensures Open(Now()) && log == []
      ensures var e := ChainEdge(old(g), bs).value;
              old(g).edges[e].bs.Some? && DropOutcome(hooks, old(g), bs, old(g).edges[e].bs.value, e, r.Ok?, g)
    {
      ChainDescends(g, bs);
      ChainEdgeIsChild(g, bs);
      var e := ChainEdge(g, bs).value;
      assert g.edges[e].bs != Some(bs);
      r := DropAndRefresh(bs, g.edges[e].bs.value, e);
      Finalize(r);
      assert Mentioned(g);
    }

    method DropAndRefresh(from: NodeId, to: NodeId, e: EdgeId) returns (r: Status)
      requires Open(Now()) && log == [] && from in g.nodes && to in g.nodes && from != to
      requires e in g.edges && !g.edges[e].frozen && g.edges[e].owner == Bds(from) && g.edges[e].bs == Some(to)
      modifies this`g, this`refcnt, this`log, this`past, this`nextEdge
      ensures Open(Now()) && Now().Start() == old(g)
      ensures DropPromised(hooks, old(g), from, to, e, r.Ok?, if r.Ok? then Without(g, RemovedIn(log)) else old(g))
    {
      r := DropNoperm(from, to, e);
      if !r.Ok? {
        return;
      }
      r := RefreshPerms([from, to]);
    }

    method DropNoperm(from: NodeId, to: NodeId, e: EdgeId) returns (r: Status)
      requires Open(Now()) && log == [] && from in g.nodes && to in g.nodes && from != to
      requires e in g.edges && !g.edges[e].frozen && g.edges[e].owner == Bds(from) && g.edges[e].bs == Some(to)
      modifies this`g, this`refcnt, this`log, this`past, this`nextEdge
      ensures Open(Now()) && Now().Start() == old(g)
      ensures r.Ok? ==> RemovedIn(log) == {e} && from in g.nodes && to in g.nodes
      ensures r.Ok? ==> DropReady(hooks, old(Now()), g, from, to, e)
      ensures !r.Ok? ==> DropPromised(hooks, old(g), from, to, e, false, old(g))
    {
      ghost var t0 := Now();
      r := ReplaceNodeNoperm(from, to, true);
      if !r.Ok? {
        DropRefused(hooks, t0.g, from, to, e);
        return;
      }
      NotItsOwnParent(t0.g, g, from, to, e);
      TakeLink(from, to, e, t0);
    }

    /** Takes the link of a filter away whose parents have been moved since t0. */
    method TakeLink(from: NodeId, to: NodeId, e: EdgeId, ghost t0: Txn)
      requires Open(Now()) && Open(t0) && MovedAway(t0.g, from, to, g)
      requires e in t0.g.edges && !t0.g.edges[e].frozen && e in g.edges && g.edges[e] == t0.g.edges[e]
      requires g.edges[e].bs.Some?
      modifies this`g, this`refcnt, this`log, this`past, this`nextEdge
      ensures Open(Now()) && Now().Start() == old(Now().Start())
      ensures old(RemovedIn(log)) == {} ==> RemovedIn(log) == {e}
      ensures g.nodes.Keys == old(g.nodes.Keys) && DropReady(hooks, t0, g, from, to, e)
    {
      ghost var t1 := Now();
      RemoveChild(e);
      LinkTaken(hooks, t0, t1, Now(), from, to, e);
    }

    /** bdrv_append: puts bsNew between bsTop and its parents. */
    method Append(bsNew: NodeId, bsTop: NodeId, joins: bool) returns (r: Status)
      requires Open(Now()) && log == [] && bsNew in g.nodes && bsTop in g.nodes && g.nodes[bsNew].hasDrv
      requires g.nodes[bsNew].backing.None?
      requires RoomFor(g, bsNew, BackingRole(g, bsNew)) || Reach(ArcsOf(g), bsTop, bsNew)
      modifies this`g, this`refcnt, this`unrefs, this`log, this`past, this`nextEdge
      ensures Open(Now()) && log == []
      ensures AppendOutcome(hooks, old(g), old(nextEdge), bsNew, bsTop, joins, r.Ok?, g)
    {
      r := AppendAndRefresh(bsNew, bsTop, joins);
      WithoutNothing(g);
      Finalize(r);
      assert Mentioned(g);
    }

    method AppendAndRefresh(bsNew: NodeId, bsTop: NodeId, joins: bool) returns (r: Status)
      requires Open(Now()) && log == [] && bsNew in g.nodes && bsTop in g.nodes && g.nodes[bsNew].hasDrv
      requires g.nodes[bsNew].backing.None?
      requires RoomFor(g, bsNew, BackingRole(g, bsNew)) || Reach(ArcsOf(g), bsTop, bsNew)
      modifies this`g, this`refcnt, this`log, this`past, this`nextEdge
      ensures Open(Now()) && Now().Start() == old(g) && RemovedIn(log) == {}
      ensures AppendPromised(hooks, old(g), old(nextEdge), bsNew, bsTop, joins, r.Ok?, if r.Ok? then g else old(g))
    {
      r := AppendNoperm(bsNew, bsTop, joins);
      if !r.Ok? {
        return;
      }
      r := RefreshPerms([bsNew]);
    }

    method AppendNoperm(bsNew: NodeId, bsTop: NodeId, joins: bool) returns (r: Status)
      requires Open(Now()) && log == [] && bsNew in g.nodes && bsTop in g.nodes && g.nodes[bsNew].hasDrv
      requires g.nodes[bsNew].backing.None?
      requires RoomFor(g, bsNew, BackingRole(g, bsNew)) || Reach(ArcsOf(g), bsTop, bsNew)
      modifies this`g, this`refcnt, this`log, this`past, this`nextEdge
      ensures Open(Now()) && Now().Start() == old(g) && RemovedIn(log) == {}
      ensures r.Ok? ==> joins && bsNew in g.nodes && AppendReady(hooks, old(Now()), g, bsNew, bsTop)
      ensures !r.Ok? ==> AppendPromised(hooks, old(g), old(nextEdge), bsNew, bsTop, joins, false, old(g))
    {
      ghost var t0 := Now();
      var e := AttachChildNoperm(bsNew, bsTop, BackingRole(g, bsNew), joins);
      if e.None? {
        AppendRefused(hooks, t0, bsNew, bsTop, joins);
        return Einval;
      }
      ghost var t1 := Now();
      AppendDistinct(t0.g, bsNew, bsTop);
      r := ReplaceNodeNoperm(bsTop, bsNew, true);
      if !r.Ok? {
        AppendRefused(hooks, t0, bsNew, bsTop, joins);
        return;
      }
      AppendIsReady(hooks, t0, t1, Now(), bsNew, bsTop);
    }

    // -------------------------------------------------------------- freezing

    /** The links that the loops of the freeze functions visit, from bs down to `base`. */
    method ChainLinks(bs: NodeId, base: Option<NodeId>) returns (links: seq<EdgeId>)
      requires WellFormed(g) && AcyclicGraph(g) && bs in g.nodes && HasBase(g, bs, base)
      ensures links == Links(g, bs, base) && forall e | e in links :: e in g.edges
    {
      links := [];
      var i := Some(bs);
      assert [] + LinksFrom(g, i, base) == Links(g, bs, base);
      while i != base
        invariant Following(g, bs, base, links, i)
        decreases StillBelow(g, i)
      {
        FollowingNext(g, bs, base, links, i);
        var child := ChainEdge(g, i.value);
        if child.Some? {
          links, i := links + [child.value], g.edges[child.value].bs;
        } else {
          i := None;
        }
      }
      ChainEnds(g, bs, base, links, i);
    }

    method SetAllFrozen(links: seq<EdgeId>, f: bool)
      requires forall e | e in links :: e in g.edges
      modifies this`g
      ensures g == WithFrozen(old(g), LinkSet(links), f)
    {
      assert WithFrozen(g, LinkSet(links[..0]), f).edges == g.edges;
      for k := 0 to |links|
        invariant g == WithFrozen(old(g), LinkSet(links[..k]), f)
      {
        assert links[..k + 1] == links[..k] + [links[k]];
        g := g.(edges := g.edges[links[k] := g.edges[links[k]].(frozen := f)]);
      }
      assert links[..|links|] == links;
    }

    /** bdrv_freeze_backing_chain: freezes all links or none. */
    method FreezeBackingChain(bs: NodeId, base: Option<NodeId>) returns (r: Status)
      requires Open(Now()) && log == [] && bs in g.nodes && HasBase(g, bs, base)
      modifies this`g
      ensures Open(Now()) && (r.Ok? <==> forall e | e in Links(old(g), bs, base) :: CanFreeze(old(g), e))
      ensures g == if r.Ok? then WithFrozen(old(g), LinkSet(Links(old(g), bs, base)), true) else old(g)
    {
      var links := ChainLinks(bs, base);
      for k := 0 to |links|
        invariant forall i | 0 <= i < k :: !g.edges[links[i]].frozen
      {
        if g.edges[links[k]].frozen {
          assert links[k] in links && !CanFreeze(g, links[k]);
          return Eperm;
        }
      }
      for k := 0 to |links|
        invariant forall i | 0 <= i < k :: CanFreeze(g, links[i])
      {
        assert EdgeWf(g, links[k]);
        if g.edges[links[k]].bs.Some? && g.nodes[g.edges[links[k]].bs.value].neverFreeze {
          assert links[k] in links && !CanFreeze(g, links[k]);
          return Eperm;
        }
      }
      FrozenOpen(Now(), LinkSet(links), true);
      SetAllFrozen(links, true);
      return Ok;
    }

    /** bdrv_unfreeze_backing_chain.  Its assertion trips if a link is not frozen. */
    method UnfreezeBackingChain(bs: NodeId, base: Option<NodeId>) returns (tripped: bool)
      requires Open(Now()) && log == [] && bs in g.nodes && HasBase(g, bs, base)
      modifies this`g
      ensures tripped <==> !AllFrozen(old(g), Links(old(g), bs, base))
      ensures !tripped ==> Open(Now()) && g == WithFrozen(old(g), LinkSet(Links(old(g), bs, base)), false)
    {
      var links := ChainLinks(bs, base);
      for k := 0 to |links|
        invariant forall i | 0 <= i < k :: g.edges[links[i]].frozen
      {
        if !g.edges[links[k]].frozen {
          assert links[k] in links;
          return true;
        }
      }
      FrozenOpen(Now(), LinkSet(links), false);
      SetAllFrozen(links, false);
      return false;
    }
  }
}
