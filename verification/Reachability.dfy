/**
 Paths and cycles in a finite directed graph, given as the successor set of every vertex.
 */
module Reachability {

  type Arcs = map<nat, set<nat>>

  ghost predicate Arc(a: Arcs, x: nat, y: nat) {
    x in a && y in a[x]
  }

  ghost predicate Path(a: Arcs, p: seq<nat>) {
    && |p| > 0
    && forall i | 0 <= i < |p| - 1 :: Arc(a, p[i], p[i + 1])
  }

  ghost predicate PathFromTo(a: Arcs, p: seq<nat>, x: nat, y: nat) {
    Path(a, p) && p[0] == x && p[|p| - 1] == y
  }

  ghost predicate Reach(a: Arcs, x: nat, y: nat) {
    exists p :: PathFromTo(a, p, x, y)
  }

  /** Reachable by at least one arc. */
  ghost predicate Below(a: Arcs, x: nat, y: nat) {
    exists z :: Arc(a, x, z) && Reach(a, z, y)
  }

  ghost predicate Acyclic(a: Arcs) {
    forall x :: !Below(a, x, x)
  }

  /** Every successor is a vertex. */
  ghost predicate Closed(a: Arcs) {
    forall x, y | Arc(a, x, y) :: y in a
  }

  ghost function Descendants(a: Arcs, x: nat): set<nat> {
    set y | y in a && Reach(a, x, y)
  }

  lemma ReachSelf(a: Arcs, x: nat)
    ensures Reach(a, x, x)
  {
    assert PathFromTo(a, [x], x, x);
  }

  lemma ReachTrans(a: Arcs, x: nat, y: nat, z: nat)
    requires Reach(a, x, y) && Reach(a, y, z)
    ensures Reach(a, x, z)
  {
    var p :| PathFromTo(a, p, x, y);
    var q :| PathFromTo(a, q, y, z);
    var r := p + q[1..];
    forall i | 0 <= i < |r| - 1 ensures Arc(a, r[i], r[i + 1]) {
      if i < |p| - 1 {
        assert Arc(a, p[i], p[i + 1]);
      } else {
        assert r[i] == q[i - |p| + 1] && r[i + 1] == q[i - |p| + 2];
        assert Arc(a, q[i - |p| + 1], q[i - |p| + 2]);
      }
    }
    assert PathFromTo(a, r, x, z);
  }

  lemma ReachArc(a: Arcs, x: nat, y: nat)
    requires Arc(a, x, y)
    ensures Reach(a, x, y)
  {
    assert PathFromTo(a, [x, y], x, y);
  }

  /** A path is empty or begins with an arc. */
  lemma ReachCases(a: Arcs, x: nat, y: nat)
    ensures Reach(a, x, y) <==> x == y || Below(a, x, y)
  {
    if Reach(a, x, y) && x != y {
      var p :| PathFromTo(a, p, x, y);
      assert Arc(a, p[0], p[1]);
      assert PathFromTo(a, p[1..], p[1], y) by {
        forall i | 0 <= i < |p[1..]| - 1 ensures Arc(a, p[1..][i], p[1..][i + 1]) {
          assert Arc(a, p[i + 1], p[i + 2]);
        }
      }
    }
    if x == y {
      ReachSelf(a, x);
    }
    if Below(a, x, y) {
      var z :| Arc(a, x, z) && Reach(a, z, y);
      ReachArc(a, x, z);
      ReachTrans(a, x, z, y);
    }
  }

  lemma BelowReach(a: Arcs, x: nat, y: nat, z: nat)
    requires (Reach(a, x, y) && Below(a, y, z)) || (Below(a, x, y) && Reach(a, y, z))
    ensures Below(a, x, z)
  {
    if Below(a, x, y) && Reach(a, y, z) {
      var w :| Arc(a, x, w) && Reach(a, w, y);
      ReachTrans(a, w, y, z);
    } else {
      ReachCases(a, x, y);
      ReachCases(a, y, z);
    }
  }

  /** Paths of a graph whose arcs all come from `a`, except for one arc x -> y. */
  lemma {:induction false} PathWithNewArc(a: Arcs, a': Arcs, x: nat, y: nat, p: seq<nat>)
    requires forall u, v | Arc(a', u, v) :: Arc(a, u, v) || (u == x && v == y)
    requires Path(a', p)
    ensures Reach(a, p[0], p[|p| - 1]) || (Reach(a, p[0], x) && Reach(a, y, p[|p| - 1]))
    decreases |p|
  {
    var u, v := p[0], p[|p| - 1];
    if |p| == 1 {
      ReachSelf(a, u);
    } else {
      var w := p[1];
      assert Path(a', p[1..]) by {
        forall i | 0 <= i < |p[1..]| - 1 ensures Arc(a', p[1..][i], p[1..][i + 1]) {
          assert Arc(a', p[i + 1], p[i + 2]);
        }
      }
      PathWithNewArc(a, a', x, y, p[1..]);
      assert Arc(a', p[0], p[1]);
      if Arc(a, u, w) {
        ReachArc(a, u, w);
        if Reach(a, w, v) {
          ReachTrans(a, u, w, v);
        } else {
          ReachTrans(a, u, w, x);
        }
      } else {
        ReachSelf(a, x);
      }
    }
  }

  lemma NoWayBack(a: Arcs, x: nat, y: nat)
    requires Acyclic(a) && Arc(a, x, y)
    ensures !Reach(a, y, x)
  {
    assert !Below(a, x, x);
  }

  /** One new arc x -> y, in a graph where y does not reach x, closes no cycle. */
  lemma AddArcKeepsAcyclic(a: Arcs, a': Arcs, x: nat, y: nat)
    requires Acyclic(a) && !Reach(a, y, x)
    requires forall u, v | Arc(a', u, v) :: Arc(a, u, v) || (u == x && v == y)
    ensures Acyclic(a')
  {
    forall u ensures !Below(a', u, u) {
      if Below(a', u, u) {
        var w :| Arc(a', u, w) && Reach(a', w, u);
        var p :| PathFromTo(a', p, w, u);
        PathWithNewArc(a, a', x, y, p);
        if Arc(a, u, w) {
          NoWayBack(a, u, w);
          ReachArc(a, u, w);
          ReachTrans(a, u, w, x);
          ReachTrans(a, y, u, x);
        }
        assert false;
      }
    }
  }

  lemma FewerArcsKeepAcyclic(a: Arcs, a': Arcs)
    requires Acyclic(a)
    requires forall u, v | Arc(a', u, v) :: Arc(a, u, v)
    ensures Acyclic(a')
  {
    forall u ensures !Below(a', u, u) {
      if Below(a', u, u) {
        var w :| Arc(a', u, w) && Reach(a', w, u);
        FewerArcsReach(a, a', w, u);
        assert Below(a, u, u);
      }
    }
  }

  lemma FewerArcsReach(a: Arcs, a': Arcs, x: nat, y: nat)
    requires forall u, v | Arc(a', u, v) :: Arc(a, u, v)
    requires Reach(a', x, y)
    ensures Reach(a, x, y)
  {
    var p :| PathFromTo(a', p, x, y);
    forall i | 0 <= i < |p| - 1 ensures Arc(a, p[i], p[i + 1]) {
      assert Arc(a', p[i], p[i + 1]);
    }
    assert PathFromTo(a, p, x, y);
  }

  /** A set that contains x and is closed under successors contains everything x reaches. */
  lemma ClosedSetReach(a: Arcs, s: set<nat>, x: nat, y: nat)
    requires forall u, v | u in s && Arc(a, u, v) :: v in s
    requires x in s && Reach(a, x, y)
    ensures y in s
  {
    var p :| PathFromTo(a, p, x, y);
    ClosedSetPath(a, s, p, |p| - 1);
  }

  lemma {:induction false} ClosedSetPath(a: Arcs, s: set<nat>, p: seq<nat>, i: nat)
    requires forall u, v | u in s && Arc(a, u, v) :: v in s
    requires Path(a, p) && p[0] in s && i < |p|
    ensures p[i] in s
  {
    if i > 0 {
      ClosedSetPath(a, s, p, i - 1);
      assert Arc(a, p[i - 1], p[i - 1 + 1]);
    }
  }

  /** In an acyclic graph the set of descendants shrinks along every arc. */
  lemma DescendantsShrink(a: Arcs, x: nat, y: nat)
    requires Acyclic(a) && Arc(a, x, y)
    ensures Descendants(a, y) < Descendants(a, x)
  {
    forall z | z in Descendants(a, y) ensures z in Descendants(a, x) {
      ReachArc(a, x, y);
      ReachTrans(a, x, y, z);
    }
    ReachSelf(a, x);
    assert x in Descendants(a, x);
    NoWayBack(a, x, y);
  }

  /** The two graphs have the same arcs out of everything x reaches. */
  ghost predicate SameBelow(a: Arcs, a': Arcs, x: nat) {
    forall u, v | Reach(a, x, u) :: Arc(a, u, v) <==> Arc(a', u, v)
  }

  lemma SameBelowReach(a: Arcs, a': Arcs, x: nat, y: nat)
    requires SameBelow(a, a', x)
    ensures Reach(a, x, y) <==> Reach(a', x, y)
  {
    if p :| PathFromTo(a, p, x, y) {
      SameBelowPath(a, a', p, |p| - 1, false);
      assert PathFromTo(a', p, x, y);
    }
    if p :| PathFromTo(a', p, x, y) {
      SameBelowPath(a, a', p, |p| - 1, true);
    }
  }

  lemma {:induction false} SameBelowPath(a: Arcs, a': Arcs, p: seq<nat>, i: nat, back: bool)
    requires |p| > i && Path(if back then a' else a, p) && SameBelow(a, a', p[0])
    ensures Reach(a, p[0], p[i]) && forall k | 0 <= k < i :: Arc(a', p[k], p[k + 1])
  {
    if i == 0 {
      ReachSelf(a, p[0]);
    } else {
      SameBelowPath(a, a', p, i - 1, back);
      assert Arc(if back then a' else a, p[i - 1], p[i - 1 + 1]);
      ReachArc(a, p[i - 1], p[i]);
      ReachTrans(a, p[0], p[i - 1], p[i]);
    }
  }
}
