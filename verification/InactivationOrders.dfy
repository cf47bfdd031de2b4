/**
 When the assertion of bdrv_inactivate_recurse can fail: in a graph where an edge has another way
 beside it, some order of the lists makes it fail; in any other graph, none does.
 */
module InactivationOrders {
  import opened Basics
  import opened Reachability
  import opened BlockGraph
  import opened Inactivation

  /** A node from which p can be reached. */
  ghost predicate Above(g: Graph, p: NodeId, n: NodeId) {
    Reach(ArcsOf(g), n, p)
  }

  ghost predicate LeadsUp(g: Graph, p: NodeId, e: EdgeId) {
    e in g.edges && g.edges[e].bs.Some? && Above(g, p, g.edges[e].bs.value)
  }

  ghost predicate AllLeadUp(g: Graph, p: NodeId, todo: set<EdgeId>) {
    forall e | e in todo :: LeadsUp(g, p, e)
  }

  /** What leads to p comes last in the list. */
  ghost predicate UpLast(g: Graph, p: NodeId, todo: seq<EdgeId>) {
    forall i, k | 0 <= i < k < |todo| && LeadsUp(g, p, todo[i]) :: LeadsUp(g, p, todo[k])
  }

  ghost predicate AboveLast(g: Graph, p: NodeId, list: seq<NodeId>) {
    forall i, k | 0 <= i < k < |list| && Above(g, p, list[i]) :: Above(g, p, list[k])
  }

  ghost predicate AllUpLast(g: Graph, p: NodeId, kids: map<NodeId, seq<EdgeId>>) {
    forall n | n in kids :: UpLast(g, p, kids[n])
  }

  /** The orders that make the assertion fail: everything else before p, and the edge d of p last. */
  ghost predicate Bad(w: Setup, p: NodeId, c: EdgeId, d: EdgeId) {
    && Wf(w) && Beside(w.g, p, c, d) && !SomeoneFails(w)
    && AllUpLast(w.g, p, w.kids) && w.kids[p] != [] && w.kids[p][|w.kids[p]| - 1] == d
  }

  ghost predicate BadFor(w: Setup, p: NodeId) {
    exists c, d :: Bad(w, p, c, d)
  }

  /** Nodes without a parent that do not lead to p are inactive. */
  ghost predicate OthersDone(g: Graph, p: NodeId, order: seq<NodeId>) {
    forall m | m in g.nodes && !HasParent(g, m) && !Above(g, p, m) :: m in order
  }

  lemma AboveIn(g: Graph, order: seq<NodeId>, p: NodeId, n: NodeId)
    requires WellFormed(g) && Sound(g, order) && p in order && n in g.nodes && Above(g, p, n)
    ensures n in order
  {
    if n !in order {
      var s := set m | m in g.nodes && m !in order;
      forall u, v | u in s && Arc(ArcsOf(g), u, v) ensures v in s {
        ArcsClosed(g);
        if v in order {
          ParentsIn(g, order, u, v);
          assert false;
        }
      }
      ClosedSetReach(ArcsOf(g), s, n, p);
      assert false;
    }
  }

  lemma LastArc(a: Arcs, x: nat, y: nat) returns (m: nat)
    requires Reach(a, x, y) && x != y
    ensures Reach(a, x, m) && Arc(a, m, y)
  {
    var q :| PathFromTo(a, q, x, y);
    var k := |q| - 2;
    m := q[k];
    assert Arc(a, q[k], q[k + 1]);
    assert PathFromTo(a, q[..k + 1], x, m);
  }

  /** When p becomes inactive, d is not the last way to its target. */
  lemma OtherWay(w: Setup, p: NodeId, c: EdgeId, d: EdgeId, order: seq<NodeId>)
    requires Bad(w, p, c, d) && Sound(w.g, order) && p !in order
    ensures w.g.edges[c].bs == w.g.edges[d].bs || HasActiveParent(w.g, order + [p], w.g.edges[d].bs.value)
  {
    var a, x, y := ArcsOf(w.g), w.g.edges[c].bs.value, w.g.edges[d].bs.value;
    if x != y {
      var m := LastArc(a, x, y);
      EdgeIsArc(w.g, c);
      NoWayBack(a, p, x);
      ReachArc(a, p, x);
      ReachTrans(a, p, x, m);
      if m in order {
        AboveIn(w.g, order, m, p);
        assert false;
      }
      assert ParentOf(w.g, m, y) && m !in order + [p];
    }
  }

  ghost function Front(w: Setup, p: NodeId): seq<EdgeId>
    requires p in w.kids && w.kids[p] != []
  {
    w.kids[p][..|w.kids[p]| - 1]
  }

  lemma Without(w: Setup, p: NodeId, c: EdgeId, d: EdgeId, order: seq<NodeId>, above: set<EdgeId>)
    requires Bad(w, p, c, d) && Sound(w.g, order) && p !in order
    requires Promised(w.g, order + [p], above + EdgesIn(w.kids[p]))
    ensures Promised(w.g, order + [p], above + EdgesIn(Front(w, p)))
  {
    var g, now, rest := w.g, order + [p], above + EdgesIn(Front(w, p));
    OtherWay(w, p, c, d, order);
    assert w.kids[p] == Front(w, p) + [d];
    assert c in EdgesIn(w.kids[p]) && c in rest;
    forall n | n in g.nodes && n !in now && HasParent(g, n) && !HasActiveParent(g, now, n) ensures LeadsTo(g, rest, n) {
      assert LeadsTo(g, above + EdgesIn(w.kids[p]), n);
      var f :| f in above + EdgesIn(w.kids[p]) && f in g.edges && g.edges[f].bs == Some(n);
      assert f in rest || f == d;
      assert f == d ==> g.edges[c].bs == Some(n);
    }
  }

  /** Once p and the others are inactive, only what leads to p can be left, so nothing is. */
  lemma {:induction false} NothingLeft(g: Graph, p: NodeId, order: seq<NodeId>, above: set<EdgeId>, n: NodeId)
    requires WellFormed(g) && AcyclicGraph(g) && Sound(g, order) && Promised(g, order, above) && AllLeadUp(g, p, above)
    requires OthersDone(g, p, order) && p in order && n in g.nodes
    ensures n in order
    decreases Ancestors(g, n)
  {
    if Above(g, p, n) {
      AboveIn(g, order, p, n);
    } else {
      forall m | ParentOf(g, m, n) ensures m in order {
        AncestorsShrink(g, m, n);
        NothingLeft(g, p, order, above, m);
      }
      assert LeadsTo(g, above, n) ==> Above(g, p, n);
    }
  }

  lemma {:induction false} RestAppend(w: Setup, order: seq<NodeId>, bs: NodeId, todo: seq<EdgeId>, e: EdgeId)
    requires Wf(w) && ChildrenOf(w, bs, todo + [e]) && ChildrenOf(w, bs, todo) && ChildrenOf(w, bs, [e])
    ensures var (r, now) := VisitRest(w, order, bs, todo);
            VisitRest(w, order, bs, todo + [e]) == if r.Finished? then VisitRest(w, now, bs, [e]) else (r, now)
    decreases |todo|
  {
    if todo == [] {
      assert todo + [e] == [e];
    } else {
      assert (todo + [e])[0] == todo[0] && (todo + [e])[1..] == todo[1..] + [e];
      NextChild(w, bs, todo);
      var (r, now) := Visit(w, order, w.g.edges[todo[0]].bs.value);
      RestAppend(w, now, bs, todo[1..], e);
    }
  }

  lemma FrontIs(w: Setup, p: NodeId, c: EdgeId, d: EdgeId)
    requires Bad(w, p, c, d)
    ensures w.kids[p] == Front(w, p) + [d] && Distinct(Front(w, p))
    ensures ChildrenOf(w, p, Front(w, p) + [d]) && ChildrenOf(w, p, Front(w, p)) && ChildrenOf(w, p, [d])
  {
    assert w.kids[p] == Front(w, p) + [d];
    assert forall e | e in w.kids[p] :: e in EdgesIn(w.kids[p]);
  }

  /** After p became inactive and all its child edges but d were looked at. */
  lemma FrontKeeps(w: Setup, p: NodeId, c: EdgeId, d: EdgeId, order: seq<NodeId>, above: set<EdgeId>, via: set<EdgeId>)
    requires Bad(w, p, c, d) && ChildrenOf(w, p, Front(w, p)) && Distinct(Front(w, p))
    requires Sound(w.g, order) && Promised(w.g, order, above + via) && OnlyTo(w.g, via, p)
    requires p !in order && !HasActiveParent(w.g, order, p)
    ensures var (r, end) := VisitRest(w, order + [p], p, Front(w, p));
            && Sound(w.g, end) && order + [p] <= end && (r.Finished? ==> Promised(w.g, end, above)) && !r.Failed?
  {
    MarkSound(w.g, order, p);
    MarkKeeps(w, order, above, via, p);
    Without(w, p, c, d, order, above);
    ReachSelf(ArcsOf(w.g), p);
    RestKeeps(w, order, order + [p], p, Front(w, p), above);
  }

  /** The visit that makes p inactive trips: d is looked at last, when its target is already inactive. */
  lemma TripsAt(w: Setup, p: NodeId, c: EdgeId, d: EdgeId, order: seq<NodeId>, above: set<EdgeId>, via: set<EdgeId>)
    requires Bad(w, p, c, d) && Sound(w.g, order) && Promised(w.g, order, above + via) && OnlyTo(w.g, via, p)
    requires AllLeadUp(w.g, p, above) && OthersDone(w.g, p, order) && p !in order && !HasActiveParent(w.g, order, p)
    ensures Visit(w, order, p).0.Tripped?
  {
    FrontIs(w, p, c, d);
    FrontKeeps(w, p, c, d, order, above, via);
    RestAppend(w, order + [p], p, Front(w, p), d);
    var (r, end) := VisitRest(w, order + [p], p, Front(w, p));
    if r.Finished? {
      OthersStay(w.g, p, order, end);
      assert end[|order|] == p;
      TripsLast(w, p, d, end, above);
    }
    assert p !in w.refuses && w.g.nodes[p].hasDrv;
  }

  lemma OthersStay(g: Graph, p: NodeId, order: seq<NodeId>, now: seq<NodeId>)
    requires OthersDone(g, p, order) && order <= now
    ensures OthersDone(g, p, now)
  {
  }

  lemma TripsLast(w: Setup, p: NodeId, d: EdgeId, end: seq<NodeId>, above: set<EdgeId>)
    requires Wf(w) && !SomeoneFails(w) && ChildrenOf(w, p, [d]) && Sound(w.g, end) && Promised(w.g, end, above)
    requires AllLeadUp(w.g, p, above) && OthersDone(w.g, p, end) && p in end
    ensures VisitRest(w, end, p, [d]).0.Tripped?
  {
    NextChild(w, p, [d]);
    var y := w.g.edges[d].bs.value;
    NothingLeft(w.g, p, end, above, y);
    forall m | ParentOf(w.g, m, y) ensures m in end {
      NothingLeft(w.g, p, end, above, m);
    }
  }

  /** As long as nothing trips, p stays active. */
  ghost predicate Spared(p: NodeId, res: (Outcome, seq<NodeId>)) {
    res.0.Tripped? || p !in res.1
  }

  lemma {:induction false} VisitSpares(w: Setup, p: NodeId, order: seq<NodeId>, bs: NodeId,
                                       above: set<EdgeId>, via: set<EdgeId>)
    requires Wf(w) && BadFor(w, p) && Sound(w.g, order) && Promised(w.g, order, above + via) && OnlyTo(w.g, via, bs)
    requires AllLeadUp(w.g, p, above) && OthersDone(w.g, p, order) && p !in order && bs in w.g.nodes
    ensures Spared(p, Visit(w, order, bs))
    decreases Descendants(ArcsOf(w.g), bs), 1, 0, 0
  {
    if !HasActiveParent(w.g, order, bs) && bs !in order {
      if bs == p {
        var c, d :| Bad(w, p, c, d);
        TripsAt(w, p, c, d, order, above, via);
      } else {
        MarkSound(w.g, order, bs);
        MarkKeeps(w, order, above, via, bs);
        KidsUpLast(w, p, bs);
        RestSpares(w, p, order + [bs], bs, w.kids[bs], above);
      }
    }
  }

  lemma KidsUpLast(w: Setup, p: NodeId, n: NodeId)
    requires Wf(w) && BadFor(w, p) && n in w.g.nodes
    ensures UpLast(w.g, p, w.kids[n]) && ChildrenOf(w, n, w.kids[n]) && Distinct(w.kids[n])
  {
    assert forall e | e in w.kids[n] :: e in EdgesIn(w.kids[n]);
  }

  lemma {:induction false} RestSpares(w: Setup, p: NodeId, order: seq<NodeId>, bs: NodeId,
                                      todo: seq<EdgeId>, above: set<EdgeId>)
    requires Wf(w) && BadFor(w, p) && ChildrenOf(w, bs, todo) && Distinct(todo) && Sound(w.g, order)
    requires UpLast(w.g, p, todo)
    requires Promised(w.g, order, above + EdgesIn(todo)) && AllLeadUp(w.g, p, above) && OthersDone(w.g, p, order)
    requires p !in order
    ensures Spared(p, VisitRest(w, order, bs, todo))
    decreases Descendants(ArcsOf(w.g), bs), 0, |todo|, 1
  {
    if todo != [] {
      NextChild(w, bs, todo);
      var child := w.g.edges[todo[0]].bs.value;
      ChildSpares(w, p, order, bs, todo, above, child);
      if Visit(w, order, child).0.Finished? {
        UpLastRest(w.g, p, todo);
        RestSpares(w, p, Visit(w, order, child).1, bs, todo[1..], above);
      }
    }
  }

  lemma {:induction false} ChildSpares(w: Setup, p: NodeId, order: seq<NodeId>, bs: NodeId, todo: seq<EdgeId>,
                                       above: set<EdgeId>, child: NodeId)
    requires Wf(w) && BadFor(w, p) && ChildrenOf(w, bs, todo) && todo != [] && Sound(w.g, order) && UpLast(w.g, p, todo)
    requires Promised(w.g, order, above + EdgesIn(todo)) && AllLeadUp(w.g, p, above) && OthersDone(w.g, p, order)
    requires p !in order
    requires todo[0] in w.g.edges && w.g.edges[todo[0]].bs == Some(child) && child in w.g.nodes
    requires Descendants(ArcsOf(w.g), child) < Descendants(ArcsOf(w.g), bs)
    ensures Spared(p, Visit(w, order, child)) && Sound(w.g, Visit(w, order, child).1)
    ensures OthersDone(w.g, p, Visit(w, order, child).1)
    ensures Visit(w, order, child).0.Finished? ==> Promised(w.g, Visit(w, order, child).1, above + EdgesIn(todo[1..]))
    decreases Descendants(ArcsOf(w.g), bs), 0, |todo|, 0
  {
    var rest := todo[1..];
    SplitTodo(w.g, order, todo, above);
    VisitKeeps(w, order, child, above + EdgesIn(rest), {todo[0]});
    OthersStay(w.g, p, order, Visit(w, order, child).1);
    if Above(w.g, p, child) {
      RestLeadsUp(w.g, p, todo);
      VisitSpares(w, p, order, child, above + EdgesIn(rest), {todo[0]});
    }
  }

  lemma UpLastRest(g: Graph, p: NodeId, todo: seq<EdgeId>)
    requires UpLast(g, p, todo) && todo != []
    ensures UpLast(g, p, todo[1..])
  {
    assert forall i | 0 <= i < |todo[1..]| :: todo[1..][i] == todo[i + 1];
  }

  lemma RestLeadsUp(g: Graph, p: NodeId, todo: seq<EdgeId>)
    requires UpLast(g, p, todo) && todo != [] && LeadsUp(g, p, todo[0])
    ensures AllLeadUp(g, p, EdgesIn(todo[1..]))
  {
    forall e | e in EdgesIn(todo[1..]) ensures LeadsUp(g, p, e) {
      var k :| 0 <= k < |todo[1..]| && todo[1..][k] == e;
      assert todo[k + 1] == e;
    }
  }

  // ---------------------------------------------------------------- the whole list

  ghost predicate OthersComing(g: Graph, p: NodeId, order: seq<NodeId>, list: seq<NodeId>) {
    forall m | m in g.nodes && !HasParent(g, m) && !Above(g, p, m) :: m in order || m in list
  }

  lemma {:induction false} AllSpares(w: Setup, p: NodeId, order: seq<NodeId>, list: seq<NodeId>)
    requires Wf(w) && BadFor(w, p) && Sound(w.g, order) && Promised(w.g, order, {}) && p !in order
    requires (forall n | n in list :: n in w.g.nodes && !HasParent(w.g, n)) && AboveLast(w.g, p, list)
    requires OthersComing(w.g, p, order, list)
    ensures Spared(p, VisitAll(w, order, list))
    decreases |list|
  {
    if list != [] {
      RootSpares(w, p, order, list);
      assert forall i | 0 <= i < |list[1..]| :: list[1..][i] == list[i + 1];
      if Visit(w, order, list[0]).0.Finished? {
        AllSpares(w, p, Visit(w, order, list[0]).1, list[1..]);
      }
    }
  }

  lemma RootSpares(w: Setup, p: NodeId, order: seq<NodeId>, list: seq<NodeId>)
    requires Wf(w) && BadFor(w, p) && Sound(w.g, order) && Promised(w.g, order, {}) && p !in order
    requires list != [] && list[0] in w.g.nodes && !HasParent(w.g, list[0]) && AboveLast(w.g, p, list)
    requires OthersComing(w.g, p, order, list)
    ensures var (r, now) := Visit(w, order, list[0]);
            && Spared(p, (r, now)) && Sound(w.g, now)
            && (r.Finished? ==> Promised(w.g, now, {}) && OthersComing(w.g, p, now, list[1..]))
  {
    ghost var none: set<EdgeId> := {};
    assert none + none == none;
    VisitKeeps(w, order, list[0], none, none);
    var (r, now) := Visit(w, order, list[0]);
    if Above(w.g, p, list[0]) {
      OthersBefore(w.g, p, order, list);
      VisitSpares(w, p, order, list[0], none, none);
    }
    if r.Finished? {
      assert list[0] in now by {
        NoActiveParent(w.g, order, list[0]);
      }
      OthersNext(w.g, p, order, now, list);
    }
  }

  lemma NoActiveParent(g: Graph, order: seq<NodeId>, n: NodeId)
    requires !HasParent(g, n)
    ensures !HasActiveParent(g, order, n)
  {
  }

  lemma OthersNext(g: Graph, p: NodeId, order: seq<NodeId>, now: seq<NodeId>, list: seq<NodeId>)
    requires OthersComing(g, p, order, list) && list != [] && order <= now && list[0] in now
    ensures OthersComing(g, p, now, list[1..])
  {
    assert list == [list[0]] + list[1..];
  }

  lemma OthersBefore(g: Graph, p: NodeId, order: seq<NodeId>, list: seq<NodeId>)
    requires AboveLast(g, p, list) && list != [] && Above(g, p, list[0]) && OthersComing(g, p, order, list)
    ensures OthersDone(g, p, order)
  {
    assert forall k | 0 <= k < |list| :: Above(g, p, list[k]);
  }

  // ---------------------------------------------------------------- such orders exist

  ghost function ToSeq(s: set<nat>): (q: seq<nat>)
    ensures Distinct(q) && forall x :: x in q <==> x in s
    decreases |s|
  {
    if s == {} then [] else
      var x :| x in s;
      [x] + ToSeq(s - {x})
  }

  /** The elements of s, those in `late` last. */
  ghost function Late(s: set<nat>, late: set<nat>): seq<nat> {
    ToSeq(s - late) + ToSeq(s * late)
  }

  lemma LateIs(s: set<nat>, late: set<nat>)
    ensures var q := Late(s, late); Distinct(q) && EdgesIn(q) == s && LateLast(q, late)
  {
    var a, b := ToSeq(s - late), ToSeq(s * late);
    assert forall i | 0 <= i < |a| :: a[i] in s - late;
    assert forall i | 0 <= i < |b| :: b[i] in s * late;
  }

  ghost predicate LateLast(q: seq<nat>, late: set<nat>) {
    forall i, k | 0 <= i < k < |q| && q[i] in late :: q[k] in late
  }

  ghost function BadList(g: Graph, p: NodeId, d: EdgeId, n: NodeId): (q: seq<EdgeId>)
    requires n in g.nodes
  {
    if n == p then Late(g.nodes[n].children, {d})
    else Late(g.nodes[n].children, set e | e in g.nodes[n].children && LeadsUp(g, p, e))
  }

  ghost function BadSetup(g: Graph, p: NodeId, d: EdgeId): Setup {
    Setup(g, map n | n in g.nodes :: BadList(g, p, d, n), {})
  }

  lemma BadSetupIs(g: Graph, p: NodeId, c: EdgeId, d: EdgeId)
    requires WellFormed(g) && AcyclicGraph(g) && Beside(g, p, c, d) && forall n | n in g.nodes :: g.nodes[n].hasDrv
    ensures Bad(BadSetup(g, p, d), p, c, d)
  {
    BadArranged(g, p, d);
    LastIs(g.nodes[p].children, d);
  }

  lemma BadArranged(g: Graph, p: NodeId, d: EdgeId)
    requires WellFormed(g) && AcyclicGraph(g)
    ensures Arranged(g, BadSetup(g, p, d).kids) && AllUpLast(g, p, BadSetup(g, p, d).kids)
  {
    forall n | n in g.nodes
      ensures var q := BadList(g, p, d, n); Distinct(q) && EdgesIn(q) == g.nodes[n].children && UpLast(g, p, q)
    {
      BadListIs(g, p, d, n);
    }
  }

  lemma BadListIs(g: Graph, p: NodeId, d: EdgeId, n: NodeId)
    requires WellFormed(g) && AcyclicGraph(g) && n in g.nodes
    ensures var q := BadList(g, p, d, n); Distinct(q) && EdgesIn(q) == g.nodes[n].children && UpLast(g, p, q)
  {
    if n == p {
      LateIs(g.nodes[n].children, {d});
      assert forall e | e in BadList(g, p, d, n) :: e in EdgesIn(BadList(g, p, d, n));
      NoneLeadsUp(g, p, BadList(g, p, d, n));
    } else {
      LateIs(g.nodes[n].children, set e | e in g.nodes[n].children && LeadsUp(g, p, e));
      LateUp(g, p, n, BadList(g, p, d, n));
    }
  }

  lemma LateUp(g: Graph, p: NodeId, n: NodeId, todo: seq<EdgeId>)
    requires n in g.nodes && EdgesIn(todo) == g.nodes[n].children
    requires LateLast(todo, set e | e in g.nodes[n].children && LeadsUp(g, p, e))
    ensures UpLast(g, p, todo)
  {
    forall i, k | 0 <= i < k < |todo| && LeadsUp(g, p, todo[i]) ensures LeadsUp(g, p, todo[k]) {
      assert todo[i] in EdgesIn(todo);
    }
  }

  lemma NoneLeadsUp(g: Graph, p: NodeId, todo: seq<EdgeId>)
    requires WellFormed(g) && AcyclicGraph(g) && p in g.nodes && forall e | e in todo :: e in g.nodes[p].children
    ensures UpLast(g, p, todo)
  {
    forall i | 0 <= i < |todo| ensures !LeadsUp(g, p, todo[i]) {
      EdgeIsArc(g, todo[i]);
      NoWayBack(ArcsOf(g), p, g.edges[todo[i]].bs.value);
    }
  }

  lemma LastIs(s: set<nat>, d: nat)
    requires d in s
    ensures var q := Late(s, {d}); q != [] && q[|q| - 1] == d
  {
    var t := ToSeq(s * {d});
    assert d in t && t[|t| - 1] in t;
  }

  ghost function Roots(g: Graph): set<NodeId> {
    set n | n in g.nodes && !HasParent(g, n)
  }

  ghost function BadRoots(g: Graph, p: NodeId): seq<NodeId> {
    Late(Roots(g), set n | n in g.nodes && Above(g, p, n))
  }

  lemma BadRootsIs(g: Graph, p: NodeId)
    ensures var list := BadRoots(g, p);
            && Listing(g, list) && AboveLast(g, p, list) && OthersComing(g, p, [], list)
            && (forall n | n in list :: n in g.nodes && !HasParent(g, n))
            && (forall n | n in Roots(g) :: n in list)
  {
    var list, late := BadRoots(g, p), set n | n in g.nodes && Above(g, p, n);
    LateIs(Roots(g), late);
    assert forall n | n in list :: n in EdgesIn(list);
    assert forall n | n in EdgesIn(list) :: n in list;
    forall i, k | 0 <= i < k < |list| && Above(g, p, list[i]) ensures Above(g, p, list[k]) {
      assert list[i] in EdgesIn(list) && list[i] in late;
    }
  }

  /** If some edge has another way beside it, the assertion fails for some order of the lists. */
  lemma OrderTrips(g: Graph, p: NodeId, c: EdgeId, d: EdgeId)
    requires WellFormed(g) && AcyclicGraph(g) && Beside(g, p, c, d) && forall n | n in g.nodes :: g.nodes[n].hasDrv
    ensures Wf(BadSetup(g, p, d)) && Listing(g, BadRoots(g, p))
    ensures VisitAll(BadSetup(g, p, d), [], BadRoots(g, p)).0.Tripped?
  {
    var w, list := BadSetup(g, p, d), BadRoots(g, p);
    BadSetupIs(g, p, c, d);
    BadRootsIs(g, p);
    AllSpares(w, p, [], list);
    AllKeeps(w, [], [], list);
    Leftovers(w, list);
    assert [] + list == list;
    assert RootsListed(g, list, p);
  }

  ghost predicate Trips(g: Graph, kids: map<NodeId, seq<EdgeId>>, list: seq<NodeId>)
    requires WellFormed(g) && AcyclicGraph(g)
  {
    Arranged(g, kids) && Listing(g, list) && VisitAll(Setup(g, kids, {}), [], list).0.Tripped?
  }

  /** The assertion holds in every order of the lists if and only if no edge has another way beside it. */
  lemma TripsExactly(g: Graph)
    requires WellFormed(g) && AcyclicGraph(g) && forall n | n in g.nodes :: g.nodes[n].hasDrv
    ensures Reduced(g) <==> forall kids, list :: !Trips(g, kids, list)
  {
    if Reduced(g) {
      forall kids, list ensures !Trips(g, kids, list) {
        if Arranged(g, kids) && Listing(g, list) {
          assert [] + list == list;
          AllKeeps(Setup(g, kids, {}), [], [], list);
        }
      }
    } else {
      var p, c, d :| Beside(g, p, c, d);
      OrderTrips(g, p, c, d);
      assert Trips(g, BadSetup(g, p, d).kids, BadRoots(g, p));
    }
  }

  // ---------------------------------------------------------------- the smallest such graph

  ghost function TriangleNode(children: set<EdgeId>, parents: set<EdgeId>): Node {
    Node(Driver(false, false, false, true), true, children, parents, None, None, false, false)
  }

  ghost function TriangleEdge(from: NodeId, to: NodeId): Edge {
    Edge(Bds(from), Role(true, false, false, false, false), Some(to), {}, PERM_ALL, false, false)
  }

  /** Node 0 has the children 1 and 2, and 2 is also a child of 1.  There are no parallel edges. */
  ghost function Triangle(): Graph {
    Graph(map[0 := TriangleNode({0, 1}, {}), 1 := TriangleNode({2}, {0}), 2 := TriangleNode({}, {1, 2})],
          map[0 := TriangleEdge(0, 1), 1 := TriangleEdge(0, 2), 2 := TriangleEdge(1, 2)], map[])
  }

  lemma TriangleTrips()
    ensures var g := Triangle();
            WellFormed(g) && AcyclicGraph(g) && exists kids, list :: Trips(g, kids, list)
  {
    var g := Triangle();
    TriangleWf();
    TriangleAcyclic();
    EdgeIsArc(g, 2);
    ReachArc(ArcsOf(g), 1, 2);
    assert Beside(g, 0, 0, 1);
    OrderTrips(g, 0, 0, 1);
    assert Trips(g, BadSetup(g, 0, 1).kids, BadRoots(g, 0));
  }

  lemma TriangleWf()
    ensures WellFormed(Triangle())
  {
    var g := Triangle();
    assert ListsWf(g);
    forall e | e in g.edges ensures EdgeWf(g, e) {
      assert e == 0 || e == 1 || e == 2;
    }
    forall n | n in g.nodes ensures SlotsWf(g, n) {
      assert n == 0 || n == 1 || n == 2;
      forall e | e in g.nodes[n].children ensures SlotOf(g.nodes[n].drv, g.edges[e].role).NoSlot? {
        assert e == 0 || e == 1 || e == 2;
      }
    }
  }

  lemma TriangleAcyclic()
    requires WellFormed(Triangle())
    ensures AcyclicGraph(Triangle())
  {
    var a := ArcsOf(Triangle());
    forall x ensures !Below(a, x, x) {
      if Below(a, x, x) {
        var z :| Arc(a, x, z) && Reach(a, z, x);
        var s: set<nat> := if x == 0 then {1, 2} else if x == 1 then {2} else {};
        ClosedSetReach(a, s, z, x);
        assert false;
      }
    }
  }
}
