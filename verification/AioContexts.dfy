/**
 Moving the connected part of a block graph to another AioContext.

 The vertices of the walk are the owners of edges: nodes, block jobs and block backends.  A node that is
 already in the new context is not entered.
 */
module AioContexts {
  import opened BlockGraph

  type Context = nat

  predicate Attached(g: Graph, e: EdgeId) {
    e in g.edges && g.edges[e].bs.Some?
  }

  /** The edges in the lists of a vertex: its parents and children, or the nodes of a job. */
  function Incident(g: Graph, v: Owner): set<EdgeId> {
    set e | e in g.edges && g.edges[e].bs.Some? && (g.edges[e].owner == v || v == Bds(g.edges[e].bs.value))
  }

  function Across(g: Graph, e: EdgeId, v: Owner): Owner
    requires Attached(g, e)
  {
    if g.edges[e].owner == v then Bds(g.edges[e].bs.value) else g.edges[e].owner
  }

  /** A backend owns one edge. */
  ghost predicate OneRoot(g: Graph) {
    forall e, f | Attached(g, e) && Attached(g, f) && g.edges[e].owner.Backend?
           && g.edges[e].owner == g.edges[f].owner :: e == f
  }

  predicate Moved(ctx: map<NodeId, Context>, to: Context, v: Owner) {
    v.Bds? && v.node in ctx && ctx[v.node] == to
  }

  /** The two vertices share an edge that is not ignored. */
  ghost predicate Joined(g: Graph, ignored: set<EdgeId>, v: Owner, w: Owner) {
    exists e :: e in Incident(g, v) && e in Incident(g, w) && e !in ignored
  }

  /** A walk that does not go on from a node that is already in the new context. */
  ghost predicate Walk(g: Graph, ignored: set<EdgeId>, ctx: map<NodeId, Context>, to: Context, p: seq<Owner>) {
    |p| > 0 && forall i | 0 <= i < |p| - 1 :: Step(g, ignored, ctx, to, p[i], p[i + 1])
  }

  ghost predicate Step(g: Graph, ignored: set<EdgeId>, ctx: map<NodeId, Context>, to: Context, v: Owner, w: Owner) {
    !Moved(ctx, to, v) && Joined(g, ignored, v, w)
  }

  /** What has to move along with v. */
  ghost predicate Linked(g: Graph, ignored: set<EdgeId>, ctx: map<NodeId, Context>, to: Context, v: Owner, w: Owner) {
    exists p :: Walk(g, ignored, ctx, to, p) && p[0] == v && p[|p| - 1] == w
  }

  lemma LinkedSelf(g: Graph, ignored: set<EdgeId>, ctx: map<NodeId, Context>, to: Context, v: Owner)
    ensures Linked(g, ignored, ctx, to, v, v)
  {
    assert Walk(g, ignored, ctx, to, [v]);
  }

  lemma LinkedStep(g: Graph, ignored: set<EdgeId>, ctx: map<NodeId, Context>, to: Context, v: Owner, w: Owner, x: Owner)
    requires Linked(g, ignored, ctx, to, v, w) && Step(g, ignored, ctx, to, w, x)
    ensures Linked(g, ignored, ctx, to, v, x)
  {
    var p :| Walk(g, ignored, ctx, to, p) && p[0] == v && p[|p| - 1] == w;
    var q := p + [x];
    forall i | 0 <= i < |q| - 1 ensures Step(g, ignored, ctx, to, q[i], q[i + 1]) {
      if i < |p| - 1 {
        assert Step(g, ignored, ctx, to, p[i], p[i + 1]);
      }
    }
    assert Walk(g, ignored, ctx, to, q) && q[0] == v && q[|q| - 1] == x;
  }

  /** A set that is closed under steps holds everything linked to one of its members. */
  lemma {:induction false} ClosedHoldsWalk(g: Graph, ignored: set<EdgeId>, ctx: map<NodeId, Context>, to: Context,
                                           s: set<Owner>, p: seq<Owner>, i: nat)
    requires Walk(g, ignored, ctx, to, p) && i < |p| && p[0] in s
    requires forall v, w | v in s && Step(g, ignored, ctx, to, v, w) :: w in s || Moved(ctx, to, w)
    ensures p[i] in s || Moved(ctx, to, p[i])
  {
    if i > 0 {
      ClosedHoldsWalk(g, ignored, ctx, to, s, p, i - 1);
      assert Step(g, ignored, ctx, to, p[i - 1], p[i - 1 + 1]);
    }
  }

  /** Both ends of the edge are dealt with, being dealt with, or already moved. */
  ghost predicate EndsCovered(g: Graph, e: EdgeId, ctx: map<NodeId, Context>, to: Context, s: set<Owner>) {
    && Attached(g, e)
    && (g.edges[e].owner in s || Moved(ctx, to, g.edges[e].owner))
    && (Bds(g.edges[e].bs.value) in s || Moved(ctx, to, Bds(g.edges[e].bs.value)))
  }

  /** What a successful visit adds: the edges and vertices it finished. */
  ghost predicate Explored(g: Graph, ctx: map<NodeId, Context>, to: Context, stack: set<Owner>,
                           visited0: set<EdgeId>, visited: set<EdgeId>, done0: set<Owner>, done: set<Owner>) {
    && visited0 <= visited && done0 <= done
    && (forall e | e in visited && e !in visited0 :: EndsCovered(g, e, ctx, to, done + stack))
    && (forall v | v in done && v !in done0 :: Incident(g, v) <= visited)
  }

  /** The vertices of the records. */
  function Recorded(log: seq<Owner>): set<Owner> {
    set v | v in log
  }

  /** The drained sections that the records stand for. */
  function Drained(log: seq<Owner>): multiset<NodeId>
    decreases |log|
  {
    if log == [] then multiset{}
    else
      var v := log[|log| - 1];
      Drained(log[..|log| - 1]) + if v.Bds? then multiset{v.node} else multiset{}
  }

  lemma RecordedLast(log: seq<Owner>, v: Owner)
    ensures Recorded(log + [v]) == Recorded(log) + {v}
  {
    assert forall w :: w in log + [v] <==> w in log || w == v;
  }

  lemma DrainedLast(log: seq<Owner>, v: Owner)
    ensures Drained(log + [v]) == Drained(log) + if v.Bds? then multiset{v.node} else multiset{}
  {
    assert (log + [v])[..|log|] == log;
  }

  // ---------------------------------------------------------------- one vertex

  /** v is being visited, its edges `todo` are still to come. */
  ghost predicate Visiting(g: Graph, ctx: map<NodeId, Context>, to: Context, stack: set<Owner>, v: Owner,
                           todo: set<EdgeId>,
                           visited0: set<EdgeId>, visited: set<EdgeId>, done0: set<Owner>, done: set<Owner>) {
    && Explored(g, ctx, to, stack + {v}, visited0, visited, done0, done)
    && todo <= Incident(g, v) && Incident(g, v) - todo <= visited
  }

  lemma VisitingStart(g: Graph, ctx: map<NodeId, Context>, to: Context, stack: set<Owner>, v: Owner,
                      visited: set<EdgeId>, done: set<Owner>)
    ensures Visiting(g, ctx, to, stack, v, Incident(g, v), visited, visited, done, done)
  {
  }

  /** The edge e was marked, and the visit of its other end has succeeded. */
  lemma VisitingEdge(g: Graph, ctx: map<NodeId, Context>, to: Context, stack: set<Owner>, v: Owner, todo: set<EdgeId>,
                     v0: set<EdgeId>, v1: set<EdgeId>, v2: set<EdgeId>, d0: set<Owner>, d1: set<Owner>, d2: set<Owner>,
                       e: EdgeId)
    requires Visiting(g, ctx, to, stack, v, todo, v0, v1, d0, d1) && e in todo
    requires Explored(g, ctx, to, stack + {v}, v1 + {e}, v2, d1, d2)
    requires Across(g, e, v) in d2 || Moved(ctx, to, Across(g, e, v))
    ensures Visiting(g, ctx, to, stack, v, todo - {e}, v0, v2, d0, d2)
  {
    forall f | f in v2 && f !in v0 ensures EndsCovered(g, f, ctx, to, d2 + (stack + {v})) {
      if f in v1 {
        assert EndsCovered(g, f, ctx, to, d1 + (stack + {v}));
      } else if f == e {
        assert e in Incident(g, v);
      } else {
        assert f !in v1 + {e};
      }
    }
  }

  lemma VisitingDone(g: Graph, ctx: map<NodeId, Context>, to: Context, stack: set<Owner>, v: Owner,
                     v0: set<EdgeId>, v1: set<EdgeId>, d0: set<Owner>, d1: set<Owner>)
    requires Visiting(g, ctx, to, stack, v, {}, v0, v1, d0, d1)
    ensures Explored(g, ctx, to, stack, v0, v1, d0, d1 + {v})
  {
    assert d1 + (stack + {v}) == (d1 + {v}) + stack;
    assert Incident(g, v) - {} == Incident(g, v);
  }

  /** A backend is finished as soon as it is reached through its only edge. */
  lemma BackendDone(g: Graph, ctx: map<NodeId, Context>, to: Context, stack: set<Owner>, v: Owner, visited: set<EdgeId>,
                    done: set<Owner>)
    requires Incident(g, v) <= visited
    ensures Explored(g, ctx, to, stack, visited, visited, done, done + {v})
  {
  }

  lemma AcrossJoined(g: Graph, ignored: set<EdgeId>, v: Owner, e: EdgeId)
    requires e in Incident(g, v) && e !in ignored
    ensures Joined(g, ignored, v, Across(g, e, v))
  {
    assert e in Incident(g, Across(g, e, v));
  }

  lemma BackendEdge(g: Graph, v: Owner, e: EdgeId, visited: set<EdgeId>)
    requires OneRoot(g) && e in Incident(g, v) && e in visited && Across(g, e, v).Backend?
    ensures Incident(g, Across(g, e, v)) <= visited
  {
    var w := Across(g, e, v);
    forall f | f in Incident(g, w) ensures f in visited {
      assert g.edges[f].owner == w && g.edges[e].owner == w;
      assert Attached(g, e) && Attached(g, f);
    }
  }

  class ContextChange {
    const g: Graph
    const to: Context
    const ignored: set<EdgeId>
    const refuses: nat -> bool          // a block backend that does not tolerate the change
    var ctx: map<NodeId, Context>
    var drains: multiset<NodeId>        // drained sections that have begun and not ended
    var visited: set<EdgeId>
    var log: seq<Owner>

    ghost predicate Reaches(v: Owner, w: Owner)
      reads this`ctx
    {
      Linked(g, ignored, ctx, to, v, w)
    }

    /** Adds the record that changes the context of v on commit; a node is drained until then. */
    method Record(v: Owner, ghost calm: multiset<NodeId>)
      requires drains == calm + Drained(log)
      modifies this`log, this`drains
      ensures log == old(log) + [v] && Recorded(log) == old(Recorded(log)) + {v}
      ensures drains == calm + Drained(log)
    {
      DrainedLast(log, v);
      RecordedLast(log, v);
      if v.Bds? {
        drains := drains + multiset{v.node};
      }
      log := log + [v];
    }

    /** bdrv_change_aio_context and, for jobs and backends, the change_aio_ctx callbacks. */
    method Visit(v: Owner, ghost root: Owner, ghost stack: set<Owner>, ghost calm: multiset<NodeId>) returns (ok: bool)
      requires OneRoot(g) && visited <= g.edges.Keys + ignored && ignored <= visited && Reaches(root, v)
      requires v.Backend? ==> Incident(g, v) <= visited
      requires drains == calm + Drained(log)
      modifies this`visited, this`log, this`drains
      ensures old(visited) <= visited <= g.edges.Keys + ignored && drains == calm + Drained(log)
      ensures forall w | w in Recorded(log) && w !in old(Recorded(log)) ::
              Reaches(root, w) && (w.Backend? ==> !refuses(w.blk))
      ensures ok ==> v in Recorded(log) || Moved(ctx, to, v)
      ensures ok ==> Explored(g, ctx, to, stack, old(visited), visited, old(Recorded(log)), Recorded(log))
      ensures !ok ==> exists b :: Reaches(root, Backend(b)) && refuses(b)
      decreases g.edges.Keys + ignored - visited
    {
      if Moved(ctx, to, v) {
        return true;
      }
      if v.Backend? {
        if refuses(v.blk) {
          return false;
        }
        BackendDone(g, ctx, to, stack, v, visited, Recorded(log));
        Record(v, calm);
        return true;
      }
      ghost var visited0, done0 := visited, Recorded(log);
      var todo := Incident(g, v);
      VisitingStart(g, ctx, to, stack, v, visited, Recorded(log));
      while todo != {}
        invariant visited0 <= visited <= g.edges.Keys + ignored && drains == calm + Drained(log)
        invariant forall w | w in Recorded(log) && w !in done0 :: Reaches(root, w) && (w.Backend? ==> !refuses(w.blk))
        invariant Visiting(g, ctx, to, stack, v, todo, visited0, visited, done0, Recorded(log))
        decreases todo
      {
        var e :| e in todo;
        ghost var visited1, done1 := visited, Recorded(log);
        if e !in visited {
          visited := visited + {e};
          AcrossJoined(g, ignored, v, e);
          LinkedStep(g, ignored, ctx, to, root, v, Across(g, e, v));
          if Across(g, e, v).Backend? {
            BackendEdge(g, v, e, visited);
          }
          ok := Visit(Across(g, e, v), root, stack + {v}, calm);
          if !ok {
            return;
          }
          VisitingEdge(g, ctx, to, stack, v, todo, visited0, visited1, visited, done0, done1, Recorded(log), e);
        }
        todo := todo - {e};
      }
      VisitingDone(g, ctx, to, stack, v, visited0, visited, done0, Recorded(log));
      Record(v, calm);
      return true;
    }

    /** The commit callbacks, last record first. */
    method CommitAll()
      modifies this`ctx
      ensures ctx == AllMoved(old(ctx), Recorded(log), to)
    {
      var k := |log|;
      assert log[k..] == [];
      while k > 0
        invariant 0 <= k <= |log| && ctx == AllMoved(old(ctx), Recorded(log[k..]), to)
      {
        k := k - 1;
        assert log[k..] == [log[k]] + log[k + 1..];
        if log[k].Bds? && log[k].node in ctx {
          ctx := ctx[log[k].node := to];
        }
      }
      assert log[0..] == log;
    }

    /** The clean callbacks, last record first. */
    method CleanAll(ghost calm: multiset<NodeId>)
      requires drains == calm + Drained(log)
      modifies this`log, this`drains
      ensures log == [] && drains == calm
    {
      while log != []
        invariant drains == calm + Drained(log)
        decreases |log|
      {
        var v := log[|log| - 1];
        if v.Bds? {
          drains := drains - multiset{v.node};
        }
        log := log[..|log| - 1];
      }
    }

    /** bdrv_try_change_aio_context.  Either everything that is linked to the node moves or nothing does,
        and all drained sections are ended again. */
    method TryChange(n: NodeId) returns (ok: bool)
      requires OneRoot(g) && n in ctx && log == [] && ignored <= g.edges.Keys
      modifies this
      ensures ok <==> !exists b :: old(Reaches(Bds(n), Backend(b))) && refuses(b)
      ensures ok ==> ctx.Keys == old(ctx.Keys)
      ensures ok ==> forall m | m in ctx :: ctx[m] == if old(Reaches(Bds(n), Bds(m))) then to else old(ctx)[m]
      ensures !ok ==> ctx == old(ctx)
      ensures drains == old(drains) && log == []
    {
      visited := ignored;
      LinkedSelf(g, ignored, ctx, to, Bds(n));
      ok := Visit(Bds(n), Bds(n), {}, drains);
      if ok {
        AllLinkedRecorded(g, ignored, ctx, to, visited, Recorded(log), Bds(n));
        CommitAll();
      }
      CleanAll(old(drains));
    }
  }

  /** The contexts once the recorded nodes have moved. */
  function AllMoved(ctx: map<NodeId, Context>, s: set<Owner>, to: Context): map<NodeId, Context> {
    map m | m in ctx :: if Bds(m) in s then to else ctx[m]
  }

  /** After a successful walk everything linked to the start is recorded or was already moved. */
  lemma AllLinkedRecorded(g: Graph, ignored: set<EdgeId>, ctx: map<NodeId, Context>, to: Context, visited: set<EdgeId>,
                          done: set<Owner>, root: Owner)
    requires Explored(g, ctx, to, {}, ignored, visited, {}, done) && (root in done || Moved(ctx, to, root))
    ensures forall w | Linked(g, ignored, ctx, to, root, w) :: w in done || Moved(ctx, to, w)
  {
    forall v, w | v in done && Step(g, ignored, ctx, to, v, w) ensures w in done || Moved(ctx, to, w) {
      var e :| e in Incident(g, v) && e in Incident(g, w) && e !in ignored;
      assert EndsCovered(g, e, ctx, to, done + {});
    }
    forall w | Linked(g, ignored, ctx, to, root, w) ensures w in done || Moved(ctx, to, w) {
      var p :| Walk(g, ignored, ctx, to, p) && p[0] == root && p[|p| - 1] == w;
      if root in done {
        ClosedHoldsWalk(g, ignored, ctx, to, done, p, |p| - 1);
      } else {
        assert |p| == 1 || Step(g, ignored, ctx, to, p[0], p[0 + 1]);
      }
    }
  }
}
