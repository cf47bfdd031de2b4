/**
 What holds of the block layer while a transaction is open on its graph: the transaction can be
 rolled back exactly, and every reference count is accounted for.

 Each edit that belongs to a transaction is a function on Txn, with a lemma saying that it keeps
 Open, the invariant of transactions.
 */
module Transactions {
  import opened Basics
  import opened Reachability
  import opened BlockGraph
  import opened Permissions
  import opened GraphEdits

  /** The state of the block layer, with what is only needed to reason about it: the graph before
      each record of the log, and the references held by callers. */
  datatype Txn = Txn(g: Graph, past: seq<Graph>, refcnt: map<NodeId, int>, log: seq<Action>, unrefs: multiset<NodeId>,
                     outside: multiset<NodeId>, nextEdge: EdgeId)
  {
    /** The graph at the start of the transaction. */
    ghost function Start(): Graph {
      if past == [] then g else past[0]
    }

    /** The graph after record i. */
    ghost function After(i: nat): Graph {
      if i + 1 < |past| then past[i + 1] else g
    }
  }

  // ---------------------------------------------------------------- reference counts

  function HeldBy(a: Action): multiset<NodeId> {
    if a.Replaced? && a.was.Some? then multiset{a.was.value} else multiset{}
  }

  /** References that moved from an edge into an undo record. */
  function Held(log: seq<Action>): multiset<NodeId>
    decreases |log|
  {
    if log == [] then multiset{} else Held(log[..|log| - 1]) + HeldBy(log[|log| - 1])
  }

  lemma HeldLast(log: seq<Action>, a: Action)
    ensures Held(log + [a]) == Held(log) + HeldBy(a)
  {
    assert (log + [a])[..|log|] == log;
  }

  /** The references to a node: its incoming edges, those in undo records, those whose unref is
      scheduled but has not run, and those of callers. */
  ghost function Owed(g: Graph, log: seq<Action>, unrefs: multiset<NodeId>, outside: multiset<NodeId>, n: NodeId): int {
    |Parents(g, n)| + Held(log)[n] + unrefs[n] + outside[n]
  }

  ghost predicate Counted(g: Graph, refcnt: map<NodeId, int>, log: seq<Action>, unrefs: multiset<NodeId>,
                          outside: multiset<NodeId>)
  {
    && refcnt.Keys == g.nodes.Keys
    && forall n | n in g.nodes :: refcnt[n] == Owed(g, log, unrefs, outside, n)
  }

  /** No node is about to be deleted. */
  ghost predicate Alive(g: Graph, log: seq<Action>, unrefs: multiset<NodeId>, outside: multiset<NodeId>) {
    forall n | n in g.nodes :: Owed(g, log, unrefs, outside, n) >= 1
  }

  ghost predicate NoFewer(refcnt: map<NodeId, int>, refcnt': map<NodeId, int>) {
    refcnt'.Keys == refcnt.Keys && forall n | n in refcnt :: refcnt[n] <= refcnt'[n]
  }

  lemma StillAlive(g: Graph, refcnt: map<NodeId, int>, log: seq<Action>, g': Graph, refcnt': map<NodeId, int>,
                   log': seq<Action>, unrefs: multiset<NodeId>, outside: multiset<NodeId>)
    requires Counted(g, refcnt, log, unrefs, outside) && Counted(g', refcnt', log', unrefs, outside)
    requires Alive(g, log, unrefs, outside)
    requires NoFewer(refcnt, refcnt')
    ensures Alive(g', log', unrefs, outside)
  {
    forall n | n in g'.nodes ensures Owed(g', log', unrefs, outside, n) >= 1 {
      assert n in refcnt && refcnt[n] == Owed(g, log, unrefs, outside, n);
    }
  }

  lemma AliveMoreUnrefs(g: Graph, log: seq<Action>, unrefs: multiset<NodeId>, more: multiset<NodeId>,
                        outside: multiset<NodeId>)
    requires Alive(g, log, unrefs, outside)
    ensures Alive(g, log, unrefs + more, outside)
  {
    forall n | n in g.nodes ensures Owed(g, log, unrefs + more, outside, n) >= 1 {
      assert Owed(g, log, unrefs, outside, n) >= 1;
    }
  }

  // ---------------------------------------------------------------- rollback

  /** The abort callback of the record can run without tripping an assertion. */
  ghost predicate CanUndo(g: Graph, a: Action) {
    match a
    case SetPerm(e, _, _) => e in g.edges
    case Replaced(e, was) =>
      && e in g.edges && !g.edges[e].frozen && g.edges[e].bs != was && SlotFree(g, e)
      && (was.Some? ==> was.value in g.nodes)
    case Attached(e) => e in g.edges && !g.edges[e].frozen && g.edges[e].bs.Some?
    case Removed(_) => true
    case DriverPerm(_) => true
    case Inherited(_, _) => true
  }

  /** Undo(after, a) == before, for proofs that mention the result of the undo. */
  ghost predicate LeadsBack(after: Graph, a: Action, before: Graph) {
    forall g {:trigger Mentioned(g)} | Mentioned(g) && g == Undo(after, a) :: g == before
  }

  /** Undoing the record `a` leads back from `after` to the graph `before`. */
  ghost predicate StepBack(before: Graph, after: Graph, a: Action) {
    Sane(before) && CanUndo(after, a) && LeadsBack(after, a, before)
  }

  ghost predicate StepAt(t: Txn, i: nat)
    requires i < |t.past| == |t.log|
  {
    StepBack(t.past[i], t.After(i), t.log[i]) && Alive(t.past[i], t.log[..i], t.unrefs, t.outside)
  }

  /** Every record of the log leads one graph back, down to the start. */
  ghost predicate Undoable(t: Txn) {
    && |t.past| == |t.log|
    && forall i {:trigger StepAt(t, i)} | 0 <= i < |t.log| :: StepAt(t, i)
  }

  /** The edit to g', with its record. */
  ghost function Noted(t: Txn, g': Graph, a: Action, refcnt': map<NodeId, int>, nextEdge': EdgeId): Txn {
    Txn(g', t.past + [t.g], refcnt', t.log + [a], t.unrefs, t.outside, nextEdge')
  }

  lemma Push(t: Txn, g': Graph, a: Action, refcnt': map<NodeId, int>, nextEdge': EdgeId)
    requires Undoable(t) && StepBack(t.g, g', a) && Alive(t.g, t.log, t.unrefs, t.outside)
    ensures var t' := Noted(t, g', a, refcnt', nextEdge'); Undoable(t') && t'.Start() == t.Start()
  {
    var t' := Noted(t, g', a, refcnt', nextEdge');
    forall i | 0 <= i < |t'.log| ensures StepAt(t', i) {
      if i < |t.log| {
        assert StepAt(t, i);
        assert t'.log[..i] == t.log[..i];
      } else {
        assert t'.log[..i] == t.log;
      }
    }
  }

  /** The last record and its graph are taken off. */
  ghost function Shorter(t: Txn): Txn
    requires |t.past| == |t.log| > 0
  {
    var k := |t.log| - 1;
    t.(g := t.past[k], past := t.past[..k], log := t.log[..k])
  }

  lemma Pop(t: Txn)
    requires Undoable(t) && t.log != []
    ensures var k := |t.log| - 1;
            StepBack(t.past[k], t.g, t.log[k]) && Alive(t.past[k], t.log[..k], t.unrefs, t.outside)
    ensures Undoable(Shorter(t)) && Shorter(t).Start() == t.Start()
  {
    var k, t' := |t.log| - 1, Shorter(t);
    assert StepAt(t, k);
    forall i | 0 <= i < k ensures StepAt(t', i) {
      assert StepAt(t, i);
      assert t'.log[..i] == t.log[..i];
    }
  }

  /** Running the abort callbacks last-in first-out leads back to the start. */
  lemma {:induction false} UndoAllIsStart(t: Txn)
    requires Undoable(t)
    ensures UndoAll(t.g, t.log) == t.Start()
    decreases |t.log|
  {
    if t.log != [] {
      Pop(t);
      assert Mentioned(Undo(t.g, t.log[|t.log| - 1]));
      UndoAllIsStart(Shorter(t));
    }
  }

  // ---------------------------------------------------------------- removed edges

  function RemovedIn(log: seq<Action>): set<EdgeId>
    decreases |log|
  {
    if log == [] then {}
    else
      var a := log[|log| - 1];
      RemovedIn(log[..|log| - 1]) + if a.Removed? then {a.e} else {}
  }

  /** No edge is freed twice. */
  ghost predicate RemovedOnce(log: seq<Action>)
    decreases |log|
  {
    log == [] ||
    var a := log[|log| - 1];
    RemovedOnce(log[..|log| - 1]) && (a.Removed? ==> a.e !in RemovedIn(log[..|log| - 1]))
  }

  lemma RemovedLast(log: seq<Action>, a: Action)
    ensures RemovedIn(log + [a]) == RemovedIn(log) + if a.Removed? then {a.e} else {}
    ensures RemovedOnce(log + [a]) <==> RemovedOnce(log) && (a.Removed? ==> a.e !in RemovedIn(log))
  {
    assert (log + [a])[..|log|] == log;
  }

  /** Edges taken out of the graph by this transaction stay detached until it is committed. */
  ghost predicate RemovedDetached(g: Graph, log: seq<Action>) {
    && RemovedOnce(log)
    && forall e | e in RemovedIn(log) :: e in g.edges && g.edges[e].bs.None?
  }

  ghost predicate DetachedStay(g: Graph, g': Graph) {
    forall e | e in g.edges && g.edges[e].bs.None? :: e in g'.edges && g'.edges[e].bs.None?
  }

  lemma KeepsRemoved(g: Graph, log: seq<Action>, g': Graph, a: Action)
    requires RemovedDetached(g, log) && DetachedStay(g, g')
    requires a.Removed? ==> a.e in g'.edges && g'.edges[a.e].bs.None? && a.e !in RemovedIn(log)
    ensures RemovedDetached(g', log + [a])
  {
    RemovedLast(log, a);
  }

  // ---------------------------------------------------------------- the invariant

  ghost predicate EdgesBelow(g: Graph, nextEdge: EdgeId) {
    forall e | e in g.edges :: e < nextEdge
  }

  /** Holds at every step of a transaction, and while it is rolled back. */
  ghost predicate Sound(t: Txn) {
    && Sane(t.g)
    && Undoable(t)
    && Counted(t.g, t.refcnt, t.log, t.unrefs, t.outside)
    && Alive(t.g, t.log, t.unrefs, t.outside)
    && EdgesBelow(t.g, t.nextEdge)
  }

  ghost predicate RollsBackTo(t: Txn, g0: Graph) {
    Sound(t) && RemovedDetached(t.g, t.log) && t.Start() == g0
  }

  /** Holds at every step of a transaction. */
  ghost predicate Open(t: Txn) {
    exists g0 :: RollsBackTo(t, g0)
  }

  /** The edit from g to g' is sound and its record leads back. */
  ghost predicate Recorded(g: Graph, g': Graph, a: Action) {
    StepBack(g, g', a) && Sane(g')
  }

  /** A recorded edit keeps everything a transaction keeps. */
  lemma PushOpen(t: Txn, g': Graph, a: Action, refcnt': map<NodeId, int>, nextEdge': EdgeId)
    requires Open(t) && Recorded(t.g, g', a) && Counted(g', refcnt', t.log + [a], t.unrefs, t.outside)
    requires NoFewer(t.refcnt, refcnt')
    requires DetachedStay(t.g, g') && EdgesBelow(g', nextEdge')
    requires a.Removed? ==> a.e in g'.edges && g'.edges[a.e].bs.None? && a.e !in RemovedIn(t.log)
    ensures var t' := Noted(t, g', a, refcnt', nextEdge'); Open(t') && t'.Start() == t.Start()
  {
    Push(t, g', a, refcnt', nextEdge');
    KeepsRemoved(t.g, t.log, g', a);
    StillAlive(t.g, t.refcnt, t.log, g', refcnt', t.log + [a], t.unrefs, t.outside);
    assert RollsBackTo(Noted(t, g', a, refcnt', nextEdge'), t.Start());
  }

  // ---------------------------------------------------------------- the edits that move no reference

  ghost predicate SameParents(g: Graph, g': Graph) {
    g'.nodes.Keys == g.nodes.Keys && forall n | n in g.nodes :: g'.nodes[n].parents == g.nodes[n].parents
  }

  /** An edit that touches no list of parents keeps the counts. */
  lemma KeepsCounted(t: Txn, g': Graph, a: Action)
    requires Counted(t.g, t.refcnt, t.log, t.unrefs, t.outside) && HeldBy(a) == multiset{} && SameParents(t.g, g')
    ensures Counted(g', t.refcnt, t.log + [a], t.unrefs, t.outside)
  {
    HeldLast(t.log, a);
    forall n | n in g'.nodes ensures t.refcnt[n] == Owed(g', t.log + [a], t.unrefs, t.outside, n) {
      assert t.refcnt[n] == Owed(t.g, t.log, t.unrefs, t.outside, n);
    }
  }

  ghost function DoMasks(t: Txn, e: EdgeId, perm: Perms, shared: Perms): Txn
    requires e in t.g.edges
  {
    Noted(t, SetMasks(t.g, e, perm, shared), SetPerm(e, t.g.edges[e].perm, t.g.edges[e].shared), t.refcnt, t.nextEdge)
  }

  lemma MasksOpen(t: Txn, e: EdgeId, perm: Perms, shared: Perms)
    requires Open(t) && e in t.g.edges
    ensures var t' := DoMasks(t, e, perm, shared); Open(t') && t'.Start() == t.Start()
  {
    var g', a := SetMasks(t.g, e, perm, shared), SetPerm(e, t.g.edges[e].perm, t.g.edges[e].shared);
    MasksStep(t.g, e, perm, shared);
    KeepsCounted(t, g', a);
    PushOpen(t, g', a, t.refcnt, t.nextEdge);
  }

  ghost function DoInherits(t: Txn, n: NodeId, from: Option<NodeId>): Txn {
    Noted(t, SetInherits(t.g, n, from), Inherited(n, InheritsOf(t.g.inherits, n)), t.refcnt, t.nextEdge)
  }

  /** Whom n may inherit from without closing a loop. */
  ghost predicate CanInherit(g: Graph, n: NodeId, from: Option<NodeId>) {
    from.Some? ==> n in g.nodes && from.value in g.nodes && !Reach(Lineage(g.inherits), from.value, n)
  }

  lemma InheritsOpen(t: Txn, n: NodeId, from: Option<NodeId>)
    requires Open(t) && CanInherit(t.g, n, from)
    ensures var t' := DoInherits(t, n, from);
            Open(t') && t'.Start() == t.Start() && RemovedIn(t'.log) == RemovedIn(t.log)
  {
    var g', a := SetInherits(t.g, n, from), Inherited(n, InheritsOf(t.g.inherits, n));
    RemovedLast(t.log, a);
    InheritsStep(t.g, n, from);
    KeepsCounted(t, g', a);
    PushOpen(t, g', a, t.refcnt, t.nextEdge);
  }

  lemma InheritsStep(g: Graph, n: NodeId, from: Option<NodeId>)
    requires Sane(g) && CanInherit(g, n, from)
    ensures Recorded(g, SetInherits(g, n, from), Inherited(n, InheritsOf(g.inherits, n)))
  {
    InheritsAside(g, SetInherits(g, n, from).inherits);
    InheritsBack(g, n, from);
    InheritsKept(g, n, from);
  }

  lemma InheritsKept(g: Graph, n: NodeId, from: Option<NodeId>)
    requires InheritsWf(g) && CanInherit(g, n, from)
    ensures InheritsWf(SetInherits(g, n, from))
  {
    var g' := SetInherits(g, n, from);
    if from.Some? {
      AddArcKeepsAcyclic(Lineage(g.inherits), Lineage(g'.inherits), n, from.value);
    } else {
      FewerArcsKeepAcyclic(Lineage(g.inherits), Lineage(g'.inherits));
    }
  }

  /** A record that changes no graph: an answer of the driver, or an edge to free on commit. */
  ghost predicate IsMarker(t: Txn, a: Action) {
    a.DriverPerm? || (a.Removed? && a.e in t.g.edges && t.g.edges[a.e].bs.None? && a.e !in RemovedIn(t.log))
  }

  lemma MarkerOpen(t: Txn, a: Action)
    requires Open(t) && IsMarker(t, a)
    ensures var t' := Noted(t, t.g, a, t.refcnt, t.nextEdge); Open(t') && t'.Start() == t.Start()
  {
    KeepsCounted(t, t.g, a);
    PushOpen(t, t.g, a, t.refcnt, t.nextEdge);
  }

  lemma MasksStep(g: Graph, e: EdgeId, perm: Perms, shared: Perms)
    requires Sane(g) && e in g.edges
    ensures Recorded(g, SetMasks(g, e, perm, shared), SetPerm(e, g.edges[e].perm, g.edges[e].shared))
  {
    SetMasksShape(g, e, perm, shared);
    MasksBack(g, e, perm, shared);
  }

  lemma SetMasksShape(g: Graph, e: EdgeId, perm: Perms, shared: Perms)
    requires WellFormed(g) && e in g.edges
    ensures WellFormed(SetMasks(g, e, perm, shared))
    ensures ArcsOf(SetMasks(g, e, perm, shared)) == ArcsOf(g)
  {
    var g' := SetMasks(g, e, perm, shared);
    forall n | n in g.nodes ensures SlotsWf(g', n) && ChildNodes(g', n) == ChildNodes(g, n) {
      assert SlotsWf(g, n);
    }
    forall x | x in g'.edges ensures EdgeWf(g', x) {
      assert EdgeWf(g, x);
    }
  }

  // ---------------------------------------------------------------- the edits that move references

  function Bump(refcnt: map<NodeId, int>, n: Option<NodeId>, k: int): map<NodeId, int> {
    map m | m in refcnt :: if n == Some(m) then refcnt[m] + k else refcnt[m]
  }

  lemma BumpNoFewer(refcnt: map<NodeId, int>, n: Option<NodeId>)
    ensures NoFewer(refcnt, Bump(refcnt, n, 1))
  {
  }

  /** bdrv_replace_child_tran: the reference of the old target moves from the edge into the record. */
  ghost function DoReplace(t: Txn, e: EdgeId, to: Option<NodeId>): Txn
    requires e in t.g.edges
  {
    Noted(t, Redirect(t.g, e, to), Replaced(e, t.g.edges[e].bs), Bump(t.refcnt, to, 1), t.nextEdge)
  }

  ghost predicate CanReplace(g: Graph, e: EdgeId, to: Option<NodeId>) {
    && e in g.edges && !g.edges[e].frozen && g.edges[e].bs.Some? && g.edges[e].bs != to
    && (to.Some? ==> to.value in g.nodes)
    && (to.Some? && g.edges[e].owner.Bds? ==> !Reach(ArcsOf(g), to.value, g.edges[e].owner.node))
  }

  lemma ReplaceOpen(t: Txn, e: EdgeId, to: Option<NodeId>)
    requires Open(t) && CanReplace(t.g, e, to)
    ensures var t' := DoReplace(t, e, to); Open(t') && t'.Start() == t.Start()
  {
    RedirectEdges(t.g, e, to, t.nextEdge);
    ReplaceStep(t.g, e, to);
    assert EdgeWf(t.g, e);
    ReplaceCounts(t.g, t.refcnt, t.log, t.unrefs, t.outside, e, to);
    BumpNoFewer(t.refcnt, to);
    PushOpen(t, Redirect(t.g, e, to), Replaced(e, t.g.edges[e].bs), Bump(t.refcnt, to, 1), t.nextEdge);
  }

  /** A new edge, pointing to `to`. */
  function LinkNew(g: Graph, e: EdgeId, edge: Edge, to: NodeId): Graph {
    Redirect(AddEdge(g, e, edge), e, Some(to))
  }

  ghost function DoAttach(t: Txn, edge: Edge, to: NodeId): Txn {
    Noted(t, LinkNew(t.g, t.nextEdge, edge, to), Attached(t.nextEdge), Bump(t.refcnt, Some(to), 1), t.nextEdge + 1)
  }

  ghost predicate CanAttach(g: Graph, e: EdgeId, edge: Edge, to: NodeId) {
    && edge.bs.None? && !edge.frozen && to in g.nodes && SlotFree(AddEdge(g, e, edge), e)
    && (edge.owner.Bds? ==> !Reach(ArcsOf(g), to, edge.owner.node))
  }

  lemma AttachOpen(t: Txn, edge: Edge, to: NodeId)
    requires Open(t) && CanAttach(t.g, t.nextEdge, edge, to)
    ensures var t' := DoAttach(t, edge, to); Open(t') && t'.Start() == t.Start()
    ensures t.nextEdge !in t.g.edges
  {
    AttachEdges(t.g, edge, to, t.nextEdge);
    AttachStep(t.g, t.nextEdge, edge, to);
    AttachCounts(t.g, t.refcnt, t.log, t.unrefs, t.outside, t.nextEdge, edge, to);
    AttachPush(t, edge, to, DoAttach(t, edge, to));
  }

  lemma AttachPush(t: Txn, edge: Edge, to: NodeId, t': Txn)
    requires Open(t) && t' == DoAttach(t, edge, to) && Recorded(t.g, t'.g, Attached(t.nextEdge))
    requires Counted(t'.g, t'.refcnt, t'.log, t.unrefs, t.outside) && DetachedStay(t.g, t'.g)
    requires EdgesBelow(t'.g, t'.nextEdge)
    ensures Open(t') && t'.Start() == t.Start()
  {
    BumpNoFewer(t.refcnt, Some(to));
    PushOpen(t, t'.g, Attached(t.nextEdge), t'.refcnt, t'.nextEdge);
  }

  lemma RedirectEdges(g: Graph, e: EdgeId, to: Option<NodeId>, nextEdge: EdgeId)
    requires e in g.edges && g.edges[e].bs.Some? && EdgesBelow(g, nextEdge)
    ensures EdgesBelow(Redirect(g, e, to), nextEdge) && DetachedStay(g, Redirect(g, e, to))
  {
  }

  lemma AttachEdges(g: Graph, edge: Edge, to: NodeId, nextEdge: EdgeId)
    requires EdgesBelow(g, nextEdge)
    ensures nextEdge !in g.edges
    ensures EdgesBelow(LinkNew(g, nextEdge, edge, to), nextEdge + 1) && DetachedStay(g, LinkNew(g, nextEdge, edge, to))
  {
  }

  lemma ReplaceStep(g: Graph, e: EdgeId, to: Option<NodeId>)
    requires Sane(g) && CanReplace(g, e, to)
    ensures Recorded(g, Redirect(g, e, to), Replaced(e, g.edges[e].bs))
    ensures SlotFree(g, e)
  {
    assert EdgeWf(g, e);
    AttachedHasSlot(g, e);
    RedirectSane(g, e, to);
    RedirectBack(g, e, to);
    RedirectKeepsSlotFree(g, e, to);
  }

  lemma RedirectSane(g: Graph, e: EdgeId, to: Option<NodeId>)
    requires Sane(g) && e in g.edges && SlotFree(g, e) && (to.Some? ==> to.value in g.nodes)
    requires to.Some? && g.edges[e].owner.Bds? ==> !Reach(ArcsOf(g), to.value, g.edges[e].owner.node)
    ensures Sane(Redirect(g, e, to))
  {
    RedirectWf(g, e, to);
    RedirectAcyclic(g, e, to);
    SameInherits(g, Redirect(g, e, to));
  }

  lemma RedirectKeepsSlotFree(g: Graph, e: EdgeId, to: Option<NodeId>)
    requires e in g.edges && SlotFree(g, e)
    ensures SlotFree(Redirect(g, e, to), e)
  {
  }

  lemma AttachStep(g: Graph, e: EdgeId, edge: Edge, to: NodeId)
    requires Sane(g) && e !in g.edges && CanAttach(g, e, edge, to)
    ensures Recorded(g, LinkNew(g, e, edge, to), Attached(e))
  {
    AddEdgeWf(g, e, edge);
    SameInherits(g, AddEdge(g, e, edge));
    RedirectSane(AddEdge(g, e, edge), e, Some(to));
    AttachBack(g, e, edge, to);
  }

  /** A redirected edge leaves the parents of its old target and joins those of its new one. */
  lemma RedirectParents(g: Graph, e: EdgeId, to: Option<NodeId>, n: NodeId)
    requires e in g.edges && n in g.nodes && g.edges[e].bs != to
    requires e in g.nodes[n].parents <==> g.edges[e].bs == Some(n)
    ensures |Parents(Redirect(g, e, to), n)| ==
            |Parents(g, n)| + (if to == Some(n) then 1 else 0) - (if g.edges[e].bs == Some(n) then 1 else 0)
  {
    if g.edges[e].bs == Some(n) {
      assert |g.nodes[n].parents - {e}| + 1 == |g.nodes[n].parents|;
    } else if to != Some(n) {
      assert g.nodes[n].parents - {e} == g.nodes[n].parents;
    }
  }

  lemma ReplaceOwed(g: Graph, log: seq<Action>, unrefs: multiset<NodeId>, outside: multiset<NodeId>,
                    e: EdgeId, to: Option<NodeId>, n: NodeId)
    requires e in g.edges && ListsWf(g) && EdgeWf(g, e) && n in g.nodes
    requires g.edges[e].bs.Some? && g.edges[e].bs != to
    ensures Owed(Redirect(g, e, to), log + [Replaced(e, g.edges[e].bs)], unrefs, outside, n) ==
            Owed(g, log, unrefs, outside, n) + (if to == Some(n) then 1 else 0)
  {
    HeldLast(log, Replaced(e, g.edges[e].bs));
    RedirectParents(g, e, to, n);
  }

  lemma ReplaceCounts(g: Graph, refcnt: map<NodeId, int>, log: seq<Action>, unrefs: multiset<NodeId>,
                      outside: multiset<NodeId>, e: EdgeId, to: Option<NodeId>)
    requires Counted(g, refcnt, log, unrefs, outside) && e in g.edges && ListsWf(g) && EdgeWf(g, e)
    requires g.edges[e].bs.Some? && g.edges[e].bs != to && (to.Some? ==> to.value in g.nodes)
    ensures Counted(Redirect(g, e, to), Bump(refcnt, to, 1), log + [Replaced(e, g.edges[e].bs)], unrefs, outside)
  {
    var g', refcnt', log' := Redirect(g, e, to), Bump(refcnt, to, 1), log + [Replaced(e, g.edges[e].bs)];
    forall n | n in g'.nodes ensures refcnt'[n] == Owed(g', log', unrefs, outside, n) {
      ReplaceOwed(g, log, unrefs, outside, e, to, n);
    }
  }

  lemma AttachCounts(g: Graph, refcnt: map<NodeId, int>, log: seq<Action>, unrefs: multiset<NodeId>,
                     outside: multiset<NodeId>, e: EdgeId, edge: Edge, to: NodeId)
    requires Counted(g, refcnt, log, unrefs, outside) && ListsWf(g)
    requires e !in g.edges && edge.bs.None? && to in g.nodes
    ensures Counted(LinkNew(g, e, edge, to), Bump(refcnt, Some(to), 1), log + [Attached(e)], unrefs, outside)
  {
    var g', refcnt', log' := LinkNew(g, e, edge, to), Bump(refcnt, Some(to), 1), log + [Attached(e)];
    forall n | n in g'.nodes ensures refcnt'[n] == Owed(g', log', unrefs, outside, n) {
      HeldLast(log, Attached(e));
      RedirectParents(AddEdge(g, e, edge), e, Some(to), n);
    }
  }

  // ---------------------------------------------------------------- abort

  /** The abort callback of the last record.  Undoing a replacement drops the reference to the
      target at once, undoing an attachment schedules the unref. */
  ghost function Undone(t: Txn): Txn
    requires |t.past| == |t.log| > 0
  {
    var a := t.log[|t.log| - 1];
    var t' := Shorter(t).(g := Undo(t.g, a));
    if a.Replaced? && a.e in t.g.edges then t'.(refcnt := Bump(t.refcnt, t.g.edges[a.e].bs, -1))
    else if a.Attached? && a.e in t.g.edges && t.g.edges[a.e].bs.Some? then
      t'.(unrefs := t.unrefs + multiset{t.g.edges[a.e].bs.value})
    else t'
  }

  lemma UndoneSound(t: Txn)
    requires Sound(t) && t.log != []
    ensures Sound(Undone(t)) && Undone(t).Start() == t.Start()
    ensures CanUndo(t.g, t.log[|t.log| - 1])
  {
    Pop(t);
    assert Mentioned(Undo(t.g, t.log[|t.log| - 1]));
    UndoneUndoable(t);
    UndoneCounted(t);
    UndoneEdges(t.g, t.log[|t.log| - 1], t.nextEdge);
  }

  lemma UndoneUndoable(t: Txn)
    requires Undoable(t) && t.log != []
    ensures var t' := Undone(t); Undoable(t') && t'.Start() == t.Start() && Alive(t'.g, t'.log, t'.unrefs, t'.outside)
  {
    Pop(t);
    assert Mentioned(Undo(t.g, t.log[|t.log| - 1]));
    var t', s := Undone(t), Shorter(t);
    if t'.unrefs != t.unrefs {
      var e := t.log[|t.log| - 1].e;
      var more := multiset{t.g.edges[e].bs.value};
      AliveMoreUnrefs(t'.g, t'.log, t.unrefs, more, t.outside);
      forall i | 0 <= i < |t'.log| ensures StepAt(t', i) {
        assert StepAt(s, i);
        AliveMoreUnrefs(t'.past[i], t'.log[..i], t.unrefs, more, t.outside);
      }
    } else {
      forall i | 0 <= i < |t'.log| ensures StepAt(t', i) {
        assert StepAt(s, i);
      }
    }
  }

  lemma UndoneEdges(g: Graph, a: Action, nextEdge: EdgeId)
    requires EdgesBelow(g, nextEdge)
    ensures EdgesBelow(Undo(g, a), nextEdge)
  {
  }

  lemma UndoneCounted(t: Txn)
    requires WellFormed(t.g) && Counted(t.g, t.refcnt, t.log, t.unrefs, t.outside)
    requires |t.past| == |t.log| > 0 && CanUndo(t.g, t.log[|t.log| - 1])
    ensures var t' := Undone(t); Counted(t'.g, t'.refcnt, t'.log, t'.unrefs, t'.outside)
  {
    var log, a := t.log[..|t.log| - 1], t.log[|t.log| - 1];
    assert t.log == log + [a];
    if a.Replaced? {
      assert EdgeWf(t.g, a.e);
      UndoReplacedCounts(t.g, t.refcnt, log, t.unrefs, t.outside, a.e, a.was);
    } else if a.Attached? {
      assert EdgeWf(t.g, a.e);
      UndoAttachedCounts(t.g, t.refcnt, log, t.unrefs, t.outside, a.e);
    } else {
      UndoOtherCounts(t.g, t.refcnt, log, t.unrefs, t.outside, a);
    }
  }

  lemma UndoOtherCounts(g: Graph, refcnt: map<NodeId, int>, log: seq<Action>, unrefs: multiset<NodeId>,
                        outside: multiset<NodeId>, a: Action)
    requires Counted(g, refcnt, log + [a], unrefs, outside) && !a.Replaced? && !a.Attached?
    ensures Counted(Undo(g, a), refcnt, log, unrefs, outside)
  {
    HeldLast(log, a);
    forall n | n in g.nodes
      ensures Owed(Undo(g, a), log, unrefs, outside, n) == Owed(g, log + [a], unrefs, outside, n)
    {
    }
  }

  lemma UndoReplacedCounts(g: Graph, refcnt: map<NodeId, int>, log: seq<Action>, unrefs: multiset<NodeId>,
                           outside: multiset<NodeId>, e: EdgeId, was: Option<NodeId>)
    requires Counted(g, refcnt, log + [Replaced(e, was)], unrefs, outside) && ListsWf(g)
    requires e in g.edges && EdgeWf(g, e) && g.edges[e].bs != was
    ensures Counted(Redirect(g, e, was), Bump(refcnt, g.edges[e].bs, -1), log, unrefs, outside)
  {
    var g', refcnt' := Redirect(g, e, was), Bump(refcnt, g.edges[e].bs, -1);
    forall n | n in g'.nodes ensures refcnt'[n] == Owed(g', log, unrefs, outside, n) {
      HeldLast(log, Replaced(e, was));
      RedirectParents(g, e, was, n);
    }
  }

  lemma UndoAttachedCounts(g: Graph, refcnt: map<NodeId, int>, log: seq<Action>, unrefs: multiset<NodeId>,
                           outside: multiset<NodeId>, e: EdgeId)
    requires Counted(g, refcnt, log + [Attached(e)], unrefs, outside) && ListsWf(g)
    requires e in g.edges && EdgeWf(g, e) && g.edges[e].bs.Some?
    ensures Counted(Undo(g, Attached(e)), refcnt, log, unrefs + multiset{g.edges[e].bs.value}, outside)
  {
    HeldLast(log, Attached(e));
    forall n | n in g.nodes ensures
      Owed(Undo(g, Attached(e)), log, unrefs + multiset{g.edges[e].bs.value}, outside, n) ==
      Owed(g, log + [Attached(e)], unrefs, outside, n)
    {
      RedirectParents(g, e, None, n);
    }
  }

  // ---------------------------------------------------------------- commit

  /** The graph without some edges. */
  function Without(g: Graph, gone: set<EdgeId>): Graph {
    g.(edges := map e | e in g.edges && e !in gone :: g.edges[e])
  }

  /** Holds while the commit callbacks run: records are taken off, nothing will be undone any more. */
  ghost predicate Closing(t: Txn) {
    && Sane(t.g)
    && Counted(t.g, t.refcnt, t.log, t.unrefs, t.outside)
    && Alive(t.g, t.log, t.unrefs, t.outside)
    && EdgesBelow(t.g, t.nextEdge)
    && RemovedDetached(t.g, t.log)
  }

  /** The commit callback of the last record. */
  ghost function Settled(t: Txn): Txn
    requires t.log != []
  {
    var k := |t.log| - 1;
    t.(g := if t.log[k].Removed? then DropEdge(t.g, t.log[k].e) else t.g,
       log := t.log[..k], past := [], unrefs := t.unrefs + HeldBy(t.log[k]))
  }

  lemma SettledClosing(t: Txn)
    requires Closing(t) && t.log != []
    ensures Closing(Settled(t))
    ensures Settled(t).unrefs + Held(Settled(t).log) == t.unrefs + Held(t.log)
    ensures Without(Settled(t).g, RemovedIn(Settled(t).log)) == Without(t.g, RemovedIn(t.log))
  {
    SettledCounted(t);
    SettledEdges(t.g, t.log, t.nextEdge);
  }

  lemma SettledCounted(t: Txn)
    requires Counted(t.g, t.refcnt, t.log, t.unrefs, t.outside) && Alive(t.g, t.log, t.unrefs, t.outside) && t.log != []
    ensures var t' := Settled(t);
            && Counted(t'.g, t'.refcnt, t'.log, t'.unrefs, t'.outside) && Alive(t'.g, t'.log, t'.unrefs, t'.outside)
            && t'.unrefs + Held(t'.log) == t.unrefs + Held(t.log)
  {
    var t', a := Settled(t), t.log[|t.log| - 1];
    forall n | n in t.g.nodes
      ensures Owed(t'.g, t'.log, t'.unrefs, t.outside, n) == Owed(t.g, t.log, t.unrefs, t.outside, n)
    {
    }
  }

  lemma SettledEdges(g: Graph, log: seq<Action>, nextEdge: EdgeId)
    requires Sane(g) && RemovedDetached(g, log) && EdgesBelow(g, nextEdge) && log != []
    ensures var k := |log| - 1;
            var g' := if log[k].Removed? then DropEdge(g, log[k].e) else g;
            && Sane(g') && RemovedDetached(g', log[..k]) && EdgesBelow(g', nextEdge)
            && Without(g', RemovedIn(log[..k])) == Without(g, RemovedIn(log))
  {
    var k := |log| - 1;
    if log[k].Removed? {
      DropEdgeWf(g, log[k].e);
      assert Without(DropEdge(g, log[k].e), RemovedIn(log[..k])).edges == Without(g, RemovedIn(log)).edges;
    }
  }

  lemma BetweenTransactions(t: Txn)
    requires t.log == [] && t.past == [] && Closing(t)
    ensures Open(t) && t.Start() == t.g
  {
    assert RollsBackTo(t, t.g);
  }

  lemma ReferencePassedOn(t: Txn, n: NodeId)
    requires Open(t) && t.log == [] && t.outside[n] > 0
    ensures Open(t.(unrefs := t.unrefs + multiset{n}, outside := t.outside - multiset{n}))
  {
    var t' := t.(unrefs := t.unrefs + multiset{n}, outside := t.outside - multiset{n});
    forall m | m in t.g.nodes
      ensures Owed(t'.g, t'.log, t'.unrefs, t'.outside, m) == Owed(t.g, t.log, t.unrefs, t.outside, m)
    {
    }
    assert RollsBackTo(t', t'.g);
  }

  /** Frozen edges stay as they are, up to their masks, and nodes keep what is not a list or a slot. */
  ghost predicate FrozenKept(g: Graph, g': Graph) {
    && NodesKept(g, g')
    && forall e | e in g.edges && g.edges[e].frozen ::
         e in g'.edges && g'.edges[e] == WithMasks(g.edges[e], (g'.edges[e].perm, g'.edges[e].shared))
  }
}
