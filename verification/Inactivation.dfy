/**
 Inactivation of all nodes of a block graph: parents before children, each node once.
 */
module Inactivation {
  import opened Basics
  import opened Reachability
  import opened BlockGraph

  datatype Outcome = Finished | Failed | Tripped

  /** `kids` are the lists of children in list order; `refuses` are the nodes where the driver or a
      parent fails, or write access is still needed. */
  datatype Setup = Setup(g: Graph, kids: map<NodeId, seq<EdgeId>>, refuses: set<NodeId>)

  ghost predicate Arranged(g: Graph, kids: map<NodeId, seq<EdgeId>>) {
    kids.Keys == g.nodes.Keys && forall n | n in g.nodes :: Distinct(kids[n]) && EdgesIn(kids[n]) == g.nodes[n].children
  }

  ghost function EdgesIn(todo: seq<EdgeId>): set<EdgeId> {
    set e | e in todo
  }

  ghost predicate Wf(w: Setup) {
    WellFormed(w.g) && AcyclicGraph(w.g) && Arranged(w.g, w.kids)
  }

  ghost predicate ParentOf(g: Graph, m: NodeId, n: NodeId) {
    Arc(ArcsOf(g), m, n)
  }

  ghost predicate HasParent(g: Graph, n: NodeId) {
    exists m :: ParentOf(g, m, n)
  }

  /** `order` are the inactive nodes, in the order in which they became inactive. */
  ghost predicate HasActiveParent(g: Graph, order: seq<NodeId>, n: NodeId) {
    exists m :: ParentOf(g, m, n) && m !in order
  }

  ghost predicate ChildrenOf(w: Setup, bs: NodeId, todo: seq<EdgeId>) {
    bs in w.g.nodes && forall e | e in todo :: e in w.g.nodes[bs].children
  }

  /** What bdrv_inactivate_recurse does: the nodes that are inactive afterwards. */
  ghost function Visit(w: Setup, order: seq<NodeId>, bs: NodeId): (Outcome, seq<NodeId>)
    requires Wf(w) && bs in w.g.nodes
    decreases Descendants(ArcsOf(w.g), bs), 1, 0
  {
    if !w.g.nodes[bs].hasDrv then (Failed, order)
    else if HasActiveParent(w.g, order, bs) then (Finished, order)
    else if bs in order then (Tripped, order)
    else if bs in w.refuses then (Failed, order)
    else VisitRest(w, order + [bs], bs, w.kids[bs])
  }

  /** Its loop over the children. */
  ghost function VisitRest(w: Setup, order: seq<NodeId>, bs: NodeId, todo: seq<EdgeId>): (Outcome, seq<NodeId>)
    requires Wf(w) && ChildrenOf(w, bs, todo)
    decreases Descendants(ArcsOf(w.g), bs), 0, |todo|
  {
    if todo == [] then (Finished, order)
    else
      EdgeDescends(w.g, bs, todo[0]);
      var (r, now) := Visit(w, order, w.g.edges[todo[0]].bs.value);
      if r.Finished? then VisitRest(w, now, bs, todo[1..]) else (r, now)
  }

  /** What bdrv_inactivate_all does with the nodes that bdrv_first and bdrv_next enumerate. */
  ghost function VisitAll(w: Setup, order: seq<NodeId>, list: seq<NodeId>): (Outcome, seq<NodeId>)
    requires Wf(w) && forall n | n in list :: n in w.g.nodes
    decreases |list|
  {
    if list == [] then (Finished, order)
    else if HasParent(w.g, list[0]) then VisitAll(w, order, list[1..])
    else
      var (r, now) := Visit(w, order, list[0]);
      if r.Finished? then VisitAll(w, now, list[1..]) else (r, now)
  }

  class Inactivator {
    const w: Setup
    var inactive: set<NodeId>          // the nodes with BDRV_O_INACTIVE
    ghost var order: seq<NodeId>

    ghost predicate Flagged()
      reads this
    {
      forall n :: n in inactive <==> n in order
    }

    /** bdrv_has_bds_parent. */
    method HasBdsParent(n: NodeId, onlyActive: bool) returns (r: bool)
      requires Wf(w) && n in w.g.nodes && Flagged()
      ensures r <==> if onlyActive then HasActiveParent(w.g, order, n) else HasParent(w.g, n)
    {
      var todo := w.g.nodes[n].parents;
      while todo != {}
        invariant todo <= w.g.nodes[n].parents
        invariant forall e | e in w.g.nodes[n].parents && e !in todo && w.g.edges[e].owner.Bds? ::
                    onlyActive && w.g.edges[e].owner.node in inactive
        decreases todo
      {
        var e :| e in todo;
        if w.g.edges[e].owner.Bds? && (!onlyActive || w.g.edges[e].owner.node !in inactive) {
          EdgeIsArc(w.g, e);
          assert ParentOf(w.g, w.g.edges[e].owner.node, n);
          return true;
        }
        todo := todo - {e};
      }
      forall m | ParentOf(w.g, m, n) ensures onlyActive && m in inactive {
        var e := ArcIsEdge(w.g, m, n);
        assert EdgeWf(w.g, e);
      }
      return false;
    }

    /** bdrv_inactivate_recurse. */
    method Recurse(bs: NodeId) returns (r: Outcome)
      requires Wf(w) && bs in w.g.nodes && Flagged()
      modifies this
      ensures Flagged() && (r, order) == Visit(w, old(order), bs)
      decreases Descendants(ArcsOf(w.g), bs)
    {
      if !w.g.nodes[bs].hasDrv {
        return Failed;
      }
      var wait := HasBdsParent(bs, true);
      if wait {
        return Finished;
      }
      if bs in inactive {
        return Tripped;
      }
      if bs in w.refuses {
        return Failed;
      }
      inactive, order := inactive + {bs}, order + [bs];
      assert w.kids[bs][0..] == w.kids[bs];
      for k := 0 to |w.kids[bs]|
        invariant Flagged() && VisitRest(w, order, bs, w.kids[bs][k..]) == Visit(w, old(order), bs)
      {
        assert w.kids[bs][k] in EdgesIn(w.kids[bs]) && w.kids[bs][k..][1..] == w.kids[bs][k + 1..];
        EdgeDescends(w.g, bs, w.kids[bs][k]);
        r := Recurse(w.g.edges[w.kids[bs][k]].bs.value);
        if !r.Finished? {
          return;
        }
      }
      return Finished;
    }

    /** bdrv_inactivate_all; `list` is what bdrv_first and bdrv_next enumerate. */
    method InactivateAll(list: seq<NodeId>) returns (r: Outcome)
      requires Wf(w) && Listing(w.g, list) && inactive == {} && order == []
      modifies this
      ensures Flagged() && (r, order) == VisitAll(w, [], list)
      ensures Sound(w.g, order)
      ensures r.Finished? ==> forall n | n in w.g.nodes && RootsListed(w.g, list, n) :: n in inactive
      ensures r.Failed? ==> SomeoneFails(w)
      ensures Reduced(w.g) ==> !r.Tripped?
    {
      assert list[0..] == list;
      r := Finished;
      for k := 0 to |list|
        invariant Flagged() && r.Finished? && VisitAll(w, order, list[k..]) == VisitAll(w, [], list)
      {
        assert list[k..][1..] == list[k + 1..];
        var inner := HasBdsParent(list[k], false);
        if !inner {
          r := Recurse(list[k]);
          if !r.Finished? {
            break;
          }
        }
      }
      AllKeeps(w, [], [], list);
      assert [] + list == list;
      Leftovers(w, list);
    }
  }

  ghost predicate Listing(g: Graph, list: seq<NodeId>) {
    Distinct(list) && forall n | n in list :: n in g.nodes
  }

  // ---------------------------------------------------------------- what every visit keeps

  /** The inactive nodes are listed once each and after all their parents. */
  ghost predicate Sound(g: Graph, order: seq<NodeId>) {
    && Distinct(order) && (forall n | n in order :: n in g.nodes)
    && (forall k, m | 0 <= k < |order| && ParentOf(g, m, order[k]) :: m in order[..k])
  }

  /** A node whose parents are all inactive is itself inactive, or one of the edges `todo` leads to it. */
  ghost predicate Promised(g: Graph, order: seq<NodeId>, todo: set<EdgeId>) {
    forall n | n in g.nodes && n !in order && HasParent(g, n) && !HasActiveParent(g, order, n) :: LeadsTo(g, todo, n)
  }

  ghost predicate LeadsTo(g: Graph, todo: set<EdgeId>, n: NodeId) {
    exists e :: e in todo && e in g.edges && g.edges[e].bs == Some(n)
  }

  /** No edge can be left out without changing what reaches what: an edge has no other way beside it. */
  ghost predicate Reduced(g: Graph) {
    forall x, c, d :: !Beside(g, x, c, d)
  }

  /** Two child edges of x, and the target of one reaches that of the other. */
  ghost predicate Beside(g: Graph, x: NodeId, c: EdgeId, d: EdgeId) {
    && x in g.nodes && c in g.nodes[x].children && d in g.nodes[x].children && c != d
    && c in g.edges && d in g.edges && g.edges[c].bs.Some? && g.edges[d].bs.Some?
    && Reach(ArcsOf(g), g.edges[c].bs.value, g.edges[d].bs.value)
  }

  ghost predicate SomeoneFails(w: Setup) {
    exists n :: n in w.g.nodes && (!w.g.nodes[n].hasDrv || n in w.refuses)
  }

  /** What became inactive lies in the subtree of bs. */
  ghost predicate OnlyBelow(g: Graph, before: seq<NodeId>, now: seq<NodeId>, bs: NodeId) {
    before <= now && forall n | n in now && n !in before :: Reach(ArcsOf(g), bs, n)
  }

  /** None of the edges leads to an inactive node. */
  ghost predicate ActiveBehind(g: Graph, order: seq<NodeId>, todo: seq<EdgeId>) {
    forall d | d in todo && d in g.edges && g.edges[d].bs.Some? :: g.edges[d].bs.value !in order
  }

  lemma ParentsIn(g: Graph, order: seq<NodeId>, m: NodeId, n: NodeId)
    requires Sound(g, order) && n in order && ParentOf(g, m, n)
    ensures m in order
  {
    var k :| 0 <= k < |order| && order[k] == n;
    assert m in order[..k];
  }

  lemma MarkSound(g: Graph, order: seq<NodeId>, n: NodeId)
    requires Sound(g, order) && n in g.nodes && n !in order && !HasActiveParent(g, order, n)
    ensures Sound(g, order + [n])
  {
    var more := order + [n];
    forall k, m | 0 <= k < |more| && ParentOf(g, m, more[k]) ensures m in more[..k] {
      if k < |order| {
        assert m in order[..k] && more[..k] == order[..k];
      } else {
        assert more[..k] == order;
      }
    }
  }

  /** One more inactive node: its children are now to be looked at. */
  lemma MarkKeeps(w: Setup, order: seq<NodeId>, above: set<EdgeId>, via: set<EdgeId>, n: NodeId)
    requires Wf(w) && Promised(w.g, order, above + via) && n in w.g.nodes && OnlyTo(w.g, via, n)
    ensures Promised(w.g, order + [n], above + EdgesIn(w.kids[n]))
  {
    var g, more, next := w.g, order + [n], above + EdgesIn(w.kids[n]);
    forall m | m in g.nodes && m !in more && HasParent(g, m) && !HasActiveParent(g, more, m)
      ensures LeadsTo(g, next, m)
    {
      if HasActiveParent(g, order, m) {
        var x :| ParentOf(g, x, m) && x !in order;
        assert x == n;
        var f := ArcIsEdge(g, n, m);
        assert f in next && g.edges[f].bs == Some(m);
      } else {
        assert LeadsTo(g, above + via, m);
        var f :| f in above + via && f in g.edges && g.edges[f].bs == Some(m);
        assert f in next;
      }
    }
  }

  ghost predicate OnlyTo(g: Graph, via: set<EdgeId>, n: NodeId) {
    forall e | e in via :: e in g.edges && g.edges[e].bs == Some(n)
  }

  /** The node can be skipped: whoever is still active will come back to it. */
  lemma SkipKeeps(g: Graph, order: seq<NodeId>, above: set<EdgeId>, via: set<EdgeId>, n: NodeId)
    requires Promised(g, order, above + via) && OnlyTo(g, via, n) && HasActiveParent(g, order, n)
    ensures Promised(g, order, above)
  {
    forall m | m in g.nodes && m !in order && HasParent(g, m) && !HasActiveParent(g, order, m)
      ensures LeadsTo(g, above, m)
    {
      assert LeadsTo(g, above + via, m);
      var f :| f in above + via && f in g.edges && g.edges[f].bs == Some(m);
      assert f !in via;
    }
  }

  /** The children of a node that was active until now are active. */
  lemma ChildrenActive(w: Setup, order: seq<NodeId>, n: NodeId)
    requires Wf(w) && Sound(w.g, order) && n in w.g.nodes && n !in order
    ensures ActiveBehind(w.g, order + [n], w.kids[n])
  {
    forall d | d in w.kids[n] && d in w.g.edges && w.g.edges[d].bs.Some? ensures w.g.edges[d].bs.value !in order + [n] {
      assert d in EdgesIn(w.kids[n]);
      var t := w.g.edges[d].bs.value;
      EdgeIsArc(w.g, d);
      NoWayBack(ArcsOf(w.g), n, t);
      ReachSelf(ArcsOf(w.g), n);
      if t in order {
        ParentsIn(w.g, order, n, t);
        assert false;
      }
    }
  }

  lemma BelowMore(g: Graph, a: seq<NodeId>, b: seq<NodeId>, d: seq<NodeId>, bs: NodeId, child: NodeId)
    requires OnlyBelow(g, a, b, bs) && OnlyBelow(g, b, d, child) && Reach(ArcsOf(g), bs, child)
    ensures OnlyBelow(g, a, d, bs)
  {
    forall n | n in d && n !in a ensures Reach(ArcsOf(g), bs, n) {
      if n !in b {
        ReachTrans(ArcsOf(g), bs, child, n);
      }
    }
  }

  /** How a visit of bs ends; `above` are the edges that the callers have still to look at. */
  ghost predicate Visited(w: Setup, before: seq<NodeId>, bs: NodeId, above: set<EdgeId>, res: (Outcome, seq<NodeId>)) {
    && Sound(w.g, res.1) && OnlyBelow(w.g, before, res.1, bs)
    && (res.0.Finished? ==> Promised(w.g, res.1, above))
    && (res.0.Failed? ==> SomeoneFails(w))
  }

  lemma {:induction false} VisitKeeps(w: Setup, order: seq<NodeId>, bs: NodeId, above: set<EdgeId>, via: set<EdgeId>)
    requires Wf(w) && bs in w.g.nodes && Sound(w.g, order) && Promised(w.g, order, above + via) && OnlyTo(w.g, via, bs)
    ensures Visited(w, order, bs, above, Visit(w, order, bs))
    ensures Visit(w, order, bs).0.Finished? ==> bs in Visit(w, order, bs).1 || HasActiveParent(w.g, order, bs)
    ensures Reduced(w.g) && (bs !in order || HasActiveParent(w.g, order, bs)) ==> !Visit(w, order, bs).0.Tripped?
    decreases Descendants(ArcsOf(w.g), bs), 1, 0
  {
    if !w.g.nodes[bs].hasDrv {
    } else if HasActiveParent(w.g, order, bs) {
      SkipKeeps(w.g, order, above, via, bs);
    } else if bs !in order && bs !in w.refuses {
      MarkSound(w.g, order, bs);
      MarkKeeps(w, order, above, via, bs);
      ChildrenActive(w, order, bs);
      ReachSelf(ArcsOf(w.g), bs);
      RestKeeps(w, order, order + [bs], bs, w.kids[bs], above);
      assert bs in order + [bs];
    }
  }

  lemma {:induction false} RestKeeps(w: Setup, before: seq<NodeId>, order: seq<NodeId>, bs: NodeId, todo: seq<EdgeId>,
                                     above: set<EdgeId>)
    requires Wf(w) && ChildrenOf(w, bs, todo) && Distinct(todo) && Sound(w.g, order)
    requires OnlyBelow(w.g, before, order, bs)
    requires Promised(w.g, order, above + EdgesIn(todo))
    ensures Visited(w, before, bs, above, VisitRest(w, order, bs, todo)) && order <= VisitRest(w, order, bs, todo).1
    ensures Reduced(w.g) && ActiveBehind(w.g, order, todo) ==> !VisitRest(w, order, bs, todo).0.Tripped?
    decreases Descendants(ArcsOf(w.g), bs), 0, |todo|
  {
    if todo == [] {
      assert above + EdgesIn(todo) == above;
    } else {
      var rest := todo[1..];
      NextChild(w, bs, todo);
      SplitTodo(w.g, order, todo, above);
      var child := w.g.edges[todo[0]].bs.value;
      VisitKeeps(w, order, child, above + EdgesIn(rest), {todo[0]});
      var now := Visit(w, order, child).1;
      BelowMore(w.g, before, order, now, bs, child);
      if Visit(w, order, child).0.Finished? {
        if Reduced(w.g) && ActiveBehind(w.g, order, todo) {
          StillActive(w, order, now, bs, todo);
        }
        RestKeeps(w, before, now, bs, rest, above);
      }
    }
  }

  lemma NextChild(w: Setup, bs: NodeId, todo: seq<EdgeId>)
    requires Wf(w) && ChildrenOf(w, bs, todo) && todo != []
    ensures todo[0] in w.g.edges && w.g.edges[todo[0]].bs.Some? && w.g.edges[todo[0]].bs.value in w.g.nodes
    ensures var child := w.g.edges[todo[0]].bs.value;
            && ParentOf(w.g, bs, child) && Reach(ArcsOf(w.g), bs, child)
            && Descendants(ArcsOf(w.g), child) < Descendants(ArcsOf(w.g), bs)
  {
    EdgeDescends(w.g, bs, todo[0]);
    EdgeIsArc(w.g, todo[0]);
    ReachArc(ArcsOf(w.g), bs, w.g.edges[todo[0]].bs.value);
  }

  lemma SplitTodo(g: Graph, order: seq<NodeId>, todo: seq<EdgeId>, above: set<EdgeId>)
    requires todo != [] && Promised(g, order, above + EdgesIn(todo))
    ensures Promised(g, order, above + EdgesIn(todo[1..]) + {todo[0]})
  {
    assert todo == [todo[0]] + todo[1..];
    assert above + EdgesIn(todo) == above + EdgesIn(todo[1..]) + {todo[0]};
  }

  /** In a reduced graph, what one child edge leads to is out of reach of the others. */
  lemma StillActive(w: Setup, before: seq<NodeId>, now: seq<NodeId>, bs: NodeId, todo: seq<EdgeId>)
    requires Wf(w) && Reduced(w.g) && ChildrenOf(w, bs, todo) && Distinct(todo) && todo != []
    requires ActiveBehind(w.g, before, todo) && OnlyBelow(w.g, before, now, w.g.edges[todo[0]].bs.value)
    ensures ActiveBehind(w.g, now, todo[1..])
  {
    forall d | d in todo[1..] && d in w.g.edges && w.g.edges[d].bs.Some? ensures w.g.edges[d].bs.value !in now {
      var k :| 0 <= k < |todo[1..]| && todo[1..][k] == d;
      assert todo[k + 1] == d && d in todo;
      assert !Beside(w.g, bs, todo[0], d);
    }
  }

  // ---------------------------------------------------------------- the whole list

  /** Every node above n that has no parent itself is in the list. */
  ghost predicate RootsListed(g: Graph, list: seq<NodeId>, n: NodeId) {
    forall m | Reach(ArcsOf(g), m, n) && m in g.nodes && !HasParent(g, m) :: m in list
  }

  ghost predicate BelowListed(g: Graph, order: seq<NodeId>, list: seq<NodeId>) {
    forall n | n in order :: exists m :: m in list && Reach(ArcsOf(g), m, n)
  }

  ghost predicate RootsDone(g: Graph, order: seq<NodeId>, list: seq<NodeId>) {
    forall m | m in list && !HasParent(g, m) :: m in order
  }

  lemma RootStillActive(g: Graph, order: seq<NodeId>, done: seq<NodeId>, n: NodeId)
    requires BelowListed(g, order, done) && !HasParent(g, n) && n !in done
    ensures n !in order
  {
    if n in order {
      var m :| m in done && Reach(ArcsOf(g), m, n);
      var p :| PathFromTo(ArcsOf(g), p, m, n);
      assert Arc(ArcsOf(g), p[|p| - 2], p[|p| - 2 + 1]);
      assert ParentOf(g, p[|p| - 2], n);
      assert false;
    }
  }

  lemma ListedMore(g: Graph, was: seq<NodeId>, now: seq<NodeId>, done: seq<NodeId>, n: NodeId)
    requires BelowListed(g, was, done) && OnlyBelow(g, was, now, n)
    ensures BelowListed(g, now, done + [n])
  {
    forall x | x in now ensures exists m :: m in done + [n] && Reach(ArcsOf(g), m, x) {
      if x in was {
        var m :| m in done && Reach(ArcsOf(g), m, x);
        assert m in done + [n];
      } else {
        assert n in done + [n] && Reach(ArcsOf(g), n, x);
      }
    }
  }

  lemma NextInList(done: seq<nat>, list: seq<nat>)
    requires Distinct(done + list) && list != []
    ensures list[0] !in done && done + list == done + [list[0]] + list[1..]
  {
    forall i | 0 <= i < |done| ensures done[i] != list[0] {
      assert (done + list)[i] == done[i] && (done + list)[|done|] == list[0];
    }
  }

  lemma {:induction false} AllKeeps(w: Setup, order: seq<NodeId>, done: seq<NodeId>, list: seq<NodeId>)
    requires Wf(w) && Listing(w.g, done + list) && (forall n | n in list :: n in w.g.nodes)
    requires Sound(w.g, order) && Promised(w.g, order, {}) && BelowListed(w.g, order, done)
    requires RootsDone(w.g, order, done)
    ensures var (r, now) := VisitAll(w, order, list);
            && Sound(w.g, now) && (r.Finished? ==> Promised(w.g, now, {}) && RootsDone(w.g, now, done + list))
            && (r.Failed? ==> SomeoneFails(w)) && (Reduced(w.g) ==> !r.Tripped?)
    decreases |list|
  {
    if list == [] {
      assert done + list == done;
    } else {
      var n, rest := list[0], list[1..];
      NextInList(done, list);
      if HasParent(w.g, n) {
        assert forall m | m in done + [n] && !HasParent(w.g, m) :: m in done;
        ListedMore(w.g, order, order, done, n);
        AllKeeps(w, order, done + [n], rest);
      } else {
        RootStillActive(w.g, order, done, n);
        ghost var none: set<EdgeId> := {};
        assert none + none == none;
        VisitKeeps(w, order, n, none, none);
        var now := Visit(w, order, n).1;
        if Visit(w, order, n).0.Finished? {
          ListedMore(w.g, order, now, done, n);
          assert !HasActiveParent(w.g, order, n);
          AllKeeps(w, now, done + [n], rest);
        }
      }
    }
  }

  ghost function Ancestors(g: Graph, n: NodeId): set<NodeId> {
    set m | m in g.nodes && Reach(ArcsOf(g), m, n)
  }

  lemma AncestorsShrink(g: Graph, m: NodeId, n: NodeId)
    requires AcyclicGraph(g) && ParentOf(g, m, n) && n in g.nodes
    ensures Ancestors(g, m) < Ancestors(g, n)
  {
    ReachArc(ArcsOf(g), m, n);
    forall x | x in Ancestors(g, m) ensures x in Ancestors(g, n) {
      ReachTrans(ArcsOf(g), x, m, n);
    }
    ReachSelf(ArcsOf(g), n);
    assert n in Ancestors(g, n);
    NoWayBack(ArcsOf(g), m, n);
  }

  /** Nothing is left over: a node whose topmost ancestors were all inactivated is inactive. */
  lemma {:induction false} ListedInactive(g: Graph, order: seq<NodeId>, list: seq<NodeId>, n: NodeId)
    requires WellFormed(g) && AcyclicGraph(g) && Promised(g, order, {}) && n in g.nodes && RootsListed(g, list, n)
    requires RootsDone(g, order, list)
    ensures n in order
    decreases Ancestors(g, n)
  {
    forall m | ParentOf(g, m, n) ensures m in order {
      AncestorsShrink(g, m, n);
      ReachArc(ArcsOf(g), m, n);
      forall x | Reach(ArcsOf(g), x, m) && x in g.nodes && !HasParent(g, x) ensures x in list {
        ReachTrans(ArcsOf(g), x, m, n);
      }
      ListedInactive(g, order, list, m);
    }
    if !HasParent(g, n) {
      ReachSelf(ArcsOf(g), n);
    }
  }

  lemma Leftovers(w: Setup, list: seq<NodeId>)
    requires Wf(w) && Listing(w.g, list)
    ensures var (r, now) := VisitAll(w, [], list);
            r.Finished? ==> forall n | n in w.g.nodes && RootsListed(w.g, list, n) :: n in now
  {
    AllKeeps(w, [], [], list);
    assert [] + list == list;
    var (r, now) := VisitAll(w, [], list);
    if r.Finished? {
      forall n | n in w.g.nodes && RootsListed(w.g, list, n) ensures n in now {
        ListedInactive(w.g, now, list, n);
      }
    }
  }
}
