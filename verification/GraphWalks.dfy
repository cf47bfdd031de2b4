/**
 The three walks over the block graph: the recursive search that refuses cycles, the depth-first
 search that sorts a subtree topologically, and the breadth-first search that decides which
 parents may be moved to another node.
 */
module GraphWalks {
  import opened Reachability
  import opened BlockGraph

  // ---------------------------------------------------------------- bdrv_recurse_has_child

  /** Returns true iff `child` can be reached from `bs`. */
  method RecurseHasChild(g: Graph, bs: NodeId, child: NodeId) returns (r: bool)
    requires WellFormed(g) && AcyclicGraph(g) && bs in g.nodes
    ensures r <==> Reach(ArcsOf(g), bs, child)
    decreases Descendants(ArcsOf(g), bs)
  {
    ReachCases(ArcsOf(g), bs, child);
    BelowByEdge(g, bs, child);
    if bs == child {
      return true;
    }
    var todo := g.nodes[bs].children;
    while todo != {}
      invariant todo <= g.nodes[bs].children
      invariant forall c | c in g.nodes[bs].children - todo :: !Reach(ArcsOf(g), g.edges[c].bs.value, child)
      decreases todo
    {
      var c :| c in todo;
      EdgeDescends(g, bs, c);
      var found := RecurseHasChild(g, g.edges[c].bs.value, child);
      if found {
        return true;
      }
      todo := todo - {c};
    }
    return false;
  }

  // ---------------------------------------------------------------- bdrv_topological_dfs

  /** No node twice, and all children of a node behind it: every parent precedes each of its
      children, and the list is closed under children. */
  ghost predicate TopoSorted(a: Arcs, list: seq<NodeId>) {
    && (forall i, j | 0 <= i < j < |list| :: list[i] != list[j])
    && (forall i | 0 <= i < |list| :: list[i] in a)
    && (forall i, y | 0 <= i < |list| && Arc(a, list[i], y) :: y in list[i + 1..])
  }

  /** The search is inside the nodes `found` that are not in the list yet; each of them lies above bs. */
  ghost predicate OpenAbove(a: Arcs, list: seq<NodeId>, found: set<NodeId>, bs: NodeId) {
    && (forall x | x in list :: x in found)
    && (forall x | x in found && x !in list :: Below(a, x, bs))
  }

  /** `list'` is `list` with part of the subtree of bs put in front of it. */
  ghost predicate Prepended(a: Arcs, list: seq<NodeId>, bs: NodeId, list': seq<NodeId>) {
    && TopoSorted(a, list')
    && |list| <= |list'| && list'[|list'| - |list|..] == list
    && forall x | x in list' :: x in list || Reach(a, bs, x)
  }

  /** The search stands at bs, which is found and not yet in the list; only the child edges
      `todo` are left to visit. */
  ghost predicate AtNode(g: Graph, list: seq<NodeId>, found: set<NodeId>, bs: NodeId, todo: set<EdgeId>,
                         list': seq<NodeId>, found': set<NodeId>)
    requires WellFormed(g) && bs in g.nodes
  {
    && todo <= g.nodes[bs].children
    && Prepended(ArcsOf(g), list, bs, list')
    && bs !in list'
    && found' == found + {bs} + (set x | x in list')
    && forall c | c in g.nodes[bs].children - todo :: g.edges[c].bs.value in list'
  }

  /** Adds the subtree of bs in front of `list`. */
  method TopologicalDfs(g: Graph, list: seq<NodeId>, found: set<NodeId>, bs: NodeId)
    returns (list': seq<NodeId>, found': set<NodeId>)
    requires WellFormed(g) && AcyclicGraph(g) && bs in g.nodes
    requires TopoSorted(ArcsOf(g), list) && OpenAbove(ArcsOf(g), list, found, bs)
    ensures Prepended(ArcsOf(g), list, bs, list')
    ensures bs in list'
    ensures found' == found + (set x | x in list')
    decreases Descendants(ArcsOf(g), bs)
  {
    if bs in found {
      assert !Below(ArcsOf(g), bs, bs);
      return list, found;
    }
    list', found' := list, found + {bs};
    var todo := g.nodes[bs].children;
    while todo != {}
      invariant AtNode(g, list, found, bs, todo, list', found')
      decreases todo
    {
      var c :| c in todo;
      var child := g.edges[c].bs.value;
      EdgeDescends(g, bs, c);
      ghost var before, foundBefore := list', found';
      VisitChild(g, list, found, bs, todo, list', found', c);
      list', found' := TopologicalDfs(g, list', found', child);
      VisitedChild(g, list, found, bs, todo, before, foundBefore, c, list', found');
      todo := todo - {c};
    }
    Visited(g, list, found, bs, list', found');
    list' := [bs] + list';
  }

  lemma VisitChild(g: Graph, list: seq<NodeId>, found: set<NodeId>, bs: NodeId, todo: set<EdgeId>,
                   list': seq<NodeId>, found': set<NodeId>, c: EdgeId)
    requires WellFormed(g) && bs in g.nodes && c in todo && OpenAbove(ArcsOf(g), list, found, bs)
    requires AtNode(g, list, found, bs, todo, list', found')
    ensures OpenAbove(ArcsOf(g), list', found', g.edges[c].bs.value)
  {
    EdgeIsArc(g, c);
    assert forall x | x in list :: x in list'[|list'| - |list|..];
    OpenBelow(ArcsOf(g), list, list', found, found', bs, g.edges[c].bs.value);
  }

  lemma VisitedChild(g: Graph, list: seq<NodeId>, found: set<NodeId>, bs: NodeId, todo: set<EdgeId>,
                     list1: seq<NodeId>, found1: set<NodeId>, c: EdgeId, list2: seq<NodeId>, found2: set<NodeId>)
    requires WellFormed(g) && AcyclicGraph(g) && bs in g.nodes && c in todo
    requires AtNode(g, list, found, bs, todo, list1, found1)
    requires Prepended(ArcsOf(g), list1, g.edges[c].bs.value, list2)
    requires g.edges[c].bs.value in list2 && found2 == found1 + (set x | x in list2)
    ensures AtNode(g, list, found, bs, todo - {c}, list2, found2)
  {
    var a, child := ArcsOf(g), g.edges[c].bs.value;
    EdgeIsArc(g, c);
    assert forall x | x in list1 :: x in list2[|list2| - |list1|..];
    assert list2[|list2| - |list|..] == list2[|list2| - |list1|..][|list1| - |list|..];
    forall x | x in list2 ensures x != bs && (x in list || Reach(a, bs, x)) {
      if x !in list1 {
        ReachCases(a, bs, x);
        NoWayBack(a, bs, child);
      }
    }
  }

  lemma Visited(g: Graph, list: seq<NodeId>, found: set<NodeId>, bs: NodeId, list': seq<NodeId>, found': set<NodeId>)
    requires WellFormed(g) && bs in g.nodes
    requires AtNode(g, list, found, bs, {}, list', found')
    ensures Prepended(ArcsOf(g), list, bs, [bs] + list')
    ensures found' == found + (set x | x in [bs] + list')
  {
    PrependSorted(g, list', bs);
    ReachSelf(ArcsOf(g), bs);
    var l := [bs] + list';
    assert l[|l| - |list|..] == list'[|list'| - |list|..];
  }

  lemma OpenBelow(a: Arcs, list: seq<NodeId>, list': seq<NodeId>, found: set<NodeId>, found': set<NodeId>,
                  bs: NodeId, child: NodeId)
    requires OpenAbove(a, list, found, bs) && Arc(a, bs, child)
    requires forall x | x in list :: x in list'
    requires found' == found + {bs} + (set x | x in list')
    ensures OpenAbove(a, list', found', child)
  {
    ReachArc(a, bs, child);
    ReachSelf(a, child);
    forall x | x in found' && x !in list' ensures Below(a, x, child) {
      if x != bs {
        BelowReach(a, x, bs, child);
      }
    }
  }

  lemma PrependSorted(g: Graph, list: seq<NodeId>, bs: NodeId)
    requires WellFormed(g) && bs in g.nodes && bs !in list && TopoSorted(ArcsOf(g), list)
    requires forall c | c in g.nodes[bs].children :: g.edges[c].bs.value in list
    ensures TopoSorted(ArcsOf(g), [bs] + list)
  {
    var a, l := ArcsOf(g), [bs] + list;
    forall i, y | 0 <= i < |l| && Arc(a, l[i], y) ensures y in l[i + 1..] {
      if i == 0 {
        var e := ArcIsEdge(g, bs, y);
        assert l[1..] == list;
      } else {
        assert l[i + 1..] == list[i..];
        assert Arc(a, list[i - 1], y);
      }
    }
  }

  /** The list of the subtrees of several nodes, as bdrv_list_refresh_perms builds it. */
  method SortSubtrees(g: Graph, roots: seq<NodeId>) returns (list: seq<NodeId>)
    requires WellFormed(g) && AcyclicGraph(g)
    requires forall r | r in roots :: r in g.nodes
    ensures TopoSorted(ArcsOf(g), list)
    ensures forall r | r in roots :: r in list
    ensures forall x | x in list :: exists r :: r in roots && Reach(ArcsOf(g), r, x)
  {
    list := [];
    var found: set<NodeId> := {};
    for i := 0 to |roots|
      invariant TopoSorted(ArcsOf(g), list) && found == (set x | x in list)
      invariant forall k | 0 <= k < i :: roots[k] in list
      invariant forall x | x in list :: exists r :: r in roots && Reach(ArcsOf(g), r, x)
    {
      ghost var before := list;
      list, found := TopologicalDfs(g, list, found, roots[i]);
      RootAdded(ArcsOf(g), before, roots, i, list);
    }
  }

  lemma RootAdded(a: Arcs, before: seq<NodeId>, roots: seq<NodeId>, i: nat, list: seq<NodeId>)
    requires i < |roots| && Prepended(a, before, roots[i], list)
    requires forall x | x in before :: exists r :: r in roots && Reach(a, r, x)
    ensures forall x | x in before :: x in list
    ensures forall x | x in list :: exists r :: r in roots && Reach(a, r, x)
  {
    assert forall x | x in before :: x in list[|list| - |before|..];
    forall x | x in list ensures exists r :: r in roots && Reach(a, r, x) {
      if x !in before {
        assert roots[i] in roots && Reach(a, roots[i], x);
      }
    }
  }

  /** A sorted list holds the whole subtree of each of its nodes. */
  lemma SortedHoldsSubtrees(a: Arcs, list: seq<NodeId>, x: NodeId, y: NodeId)
    requires TopoSorted(a, list) && x in list && Reach(a, x, y)
    ensures y in list
  {
    var s := set z | z in list;
    forall u, v | u in s && Arc(a, u, v) ensures v in s {
      var i :| 0 <= i < |list| && list[i] == u;
      assert v in list[i + 1..];
    }
    ClosedSetReach(a, s, x, y);
  }

  // ---------------------------------------------------------------- should_update_child

  /** The edge belongs to a node of the subtree of `to`. */
  ghost predicate InSubtree(g: Graph, c: EdgeId, to: NodeId) {
    exists v :: v in g.nodes && Reach(ArcsOf(g), to, v) && c in g.nodes[v].children
  }

  /** The state of the breadth-first search: `done` are the nodes fully looked at. */
  ghost predicate Searching(g: Graph, c: EdgeId, to: NodeId, found: set<NodeId>, queue: seq<NodeId>,
                            done: set<NodeId>, r: bool) {
    && done <= found <= g.nodes.Keys && to in found
    && (forall i, j | 0 <= i < j < |queue| :: queue[i] != queue[j])
    && (forall v | v in found :: v in queue <==> v !in done)
    && (forall v | v in queue :: v in found)
    && (forall v | v in found :: Reach(ArcsOf(g), to, v))
    && (!r ==> InSubtree(g, c, to))
    && (r ==> forall v | v in done :: c !in g.nodes[v].children && ChildNodes(g, v) <= found)
  }

  /** The search looks at the children of `v`, `todo` of them are left. */
  ghost predicate LookingAt(g: Graph, c: EdgeId, to: NodeId, found: set<NodeId>, queue: seq<NodeId>,
                            done: set<NodeId>, r: bool, v: NodeId, todo: set<EdgeId>) {
    && Searching(g, c, to, found, [v] + queue, done, r)
    && v in g.nodes && todo <= g.nodes[v].children
    && (r ==> c !in g.nodes[v].children - todo)
    && (r ==> forall e | e in g.nodes[v].children - todo && e in g.edges && g.edges[e].bs.Some? ::
       g.edges[e].bs.value in found)
  }

  /** May the edge `c` be redirected to `to`?  False exactly for a pinned edge and for an edge in
      the subtree of `to`, which would close a loop. */
  method ShouldUpdateChild(g: Graph, c: EdgeId, to: NodeId) returns (r: bool)
    requires WellFormed(g) && c in g.edges && to in g.nodes
    ensures r <==> !g.edges[c].stay && !InSubtree(g, c, to)
  {
    if g.edges[c].stay {
      return false;
    }
    r := true;
    var found: set<NodeId> := {to};
    var queue: seq<NodeId> := [to];
    ghost var done: set<NodeId> := {};
    ReachSelf(ArcsOf(g), to);
    while queue != []
      invariant Searching(g, c, to, found, queue, done, r)
      decreases g.nodes.Keys - done
    {
      var v := queue[0];
      assert [v] + queue[1..] == queue;
      queue := queue[1..];
      var todo := g.nodes[v].children;
      while todo != {}
        invariant LookingAt(g, c, to, found, queue, done, r, v, todo)
        decreases todo
      {
        var c2 :| c2 in todo;
        if c2 == c {
          r := false;
          break;
        }
        var w := g.edges[c2].bs.value;
        LookAtChild(g, c, to, found, queue, done, r, v, todo, c2);
        todo := todo - {c2};
        if w in found {
          continue;
        }
        queue := queue + [w];
        found := found + {w};
      }
      LookedAt(g, c, to, found, queue, done, r, v);
      done := done + {v};
    }
    SearchComplete(g, c, to, found, done, r);
  }

  lemma LookAtChild(g: Graph, c: EdgeId, to: NodeId, found: set<NodeId>, queue: seq<NodeId>, done: set<NodeId>,
                    r: bool, v: NodeId, todo: set<EdgeId>, c2: EdgeId)
    requires WellFormed(g) && LookingAt(g, c, to, found, queue, done, r, v, todo) && c2 in todo && c2 != c
    ensures g.edges[c2].bs.Some?
    ensures var w := g.edges[c2].bs.value;
            if w in found then LookingAt(g, c, to, found, queue, done, r, v, todo - {c2})
            else LookingAt(g, c, to, found + {w}, queue + [w], done, r, v, todo - {c2})
  {
    var w := g.edges[c2].bs.value;
    assert EdgeWf(g, c2);
    if w !in found {
      assert v in [v] + queue;
      EdgeIsArc(g, c2);
      ReachArc(ArcsOf(g), v, w);
      ReachTrans(ArcsOf(g), to, v, w);
      assert [v] + (queue + [w]) == ([v] + queue) + [w];
    }
  }

  lemma LookedAt(g: Graph, c: EdgeId, to: NodeId, found: set<NodeId>, queue: seq<NodeId>, done: set<NodeId>,
                 r: bool, v: NodeId)
    requires WellFormed(g) && Searching(g, c, to, found, [v] + queue, done, r) && v in g.nodes
    requires r ==> LookingAt(g, c, to, found, queue, done, r, v, {})
    ensures Searching(g, c, to, found, queue, done + {v}, r)
  {
    var q := [v] + queue;
    assert q[0] == v;
    forall k | 0 <= k < |queue| ensures queue[k] == q[k + 1] && queue[k] != v {
      assert q[0] != q[k + 1];
    }
    forall x | x in queue ensures x in q {
      var k :| 0 <= k < |queue| && queue[k] == x;
      assert q[k + 1] == x;
    }
  }

  lemma SearchComplete(g: Graph, c: EdgeId, to: NodeId, found: set<NodeId>, done: set<NodeId>, r: bool)
    requires WellFormed(g) && Searching(g, c, to, found, [], done, r)
    ensures r <==> !InSubtree(g, c, to)
  {
    if r && InSubtree(g, c, to) {
      var v :| v in g.nodes && Reach(ArcsOf(g), to, v) && c in g.nodes[v].children;
      ClosedSetReach(ArcsOf(g), done, to, v);
      assert false;
    }
  }
}
