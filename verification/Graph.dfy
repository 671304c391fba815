/** The block graph: nodes joined by edges (`BdrvChild`), reachability and acyclicity. */
module Graph {

  import opened Wrappers
  import opened Permissions

  type NodeId = nat
  type EdgeId = nat

  /** A `BdrvChild`.  Its owner is the parent node, or nothing for a root user such as a
      device or a job.  `bs` is the node it points at, or nothing while it is detached. */
  datatype Edge = Edge(owner: Option<NodeId>, bs: Option<NodeId>, role: Role, grant: Grant,
                       frozen: bool, stayAtNode: bool)

  type Edges = map<EdgeId, Edge>

  /** Edge `e` leads from node `x` to node `y`: it is in `x->children` and in `y->parents`. */
  predicate Links(es: Edges, e: EdgeId, x: NodeId, y: NodeId)
  {
    e in es && es[e].owner == Some(x) && es[e].bs == Some(y)
  }

  predicate Arrow(es: Edges, x: NodeId, y: NodeId)
  {
    exists e :: e in es && Links(es, e, x, y)
  }

  ghost predicate IsPath(es: Edges, p: seq<NodeId>)
  {
    |p| > 0 && forall i {:trigger p[i]} :: 0 < i < |p| ==> Arrow(es, p[i - 1], p[i])
  }

  ghost predicate PathFromTo(es: Edges, p: seq<NodeId>, a: NodeId, b: NodeId)
  {
    IsPath(es, p) && p[0] == a && p[|p| - 1] == b
  }

  /** `b` lies in the subtree of `a`, `a` included. */
  ghost predicate Reach(es: Edges, a: NodeId, b: NodeId)
  {
    exists p :: PathFromTo(es, p, a, b)
  }

  ghost predicate Acyclic(es: Edges)
  {
    forall x, y :: Arrow(es, x, y) ==> !Reach(es, y, x)
  }

  ghost function Targets(es: Edges): set<NodeId>
  {
    set e | e in es && es[e].bs.Some? :: es[e].bs.value
  }

  /** The subtree of `a`. */
  ghost function Below(es: Edges, a: NodeId): set<NodeId>
  {
    {a} + (set b | b in Targets(es) && Reach(es, a, b))
  }

  // ---------------------------------------------------------------------------
  // Reachability
  // ---------------------------------------------------------------------------

  lemma ReachSelf(es: Edges, a: NodeId)
    ensures Reach(es, a, a)
  {
    assert PathFromTo(es, [a], a, a);
  }

  lemma ReachTransitive(es: Edges, a: NodeId, b: NodeId, c: NodeId)
    requires Reach(es, a, b) && Reach(es, b, c)
    ensures Reach(es, a, c)
  {
    var p :| PathFromTo(es, p, a, b);
    var q :| PathFromTo(es, q, b, c);
    var r := p + q[1..];
    forall i | 0 < i < |r| ensures Arrow(es, r[i - 1], r[i]) {
      if i < |p| {
        assert r[i] == p[i];
      } else {
        assert r[i] == q[i - |p| + 1];
        assert r[i - 1] == q[i - |p|];
      }
    }
    assert PathFromTo(es, r, a, c);
  }

  lemma ReachArrow(es: Edges, a: NodeId, b: NodeId)
    requires Arrow(es, a, b)
    ensures Reach(es, a, b)
  {
    var p := [a, b];
    forall i | 0 < i < |p| ensures Arrow(es, p[i - 1], p[i]) { assert i == 1; }
    assert PathFromTo(es, p, a, b);
  }

  /** Everything below `a` other than `a` is below one of its children. */
  lemma ReachViaChild(es: Edges, a: NodeId, b: NodeId) returns (x: NodeId)
    requires Reach(es, a, b) && a != b
    ensures Arrow(es, a, x) && Reach(es, x, b)
  {
    var p :| PathFromTo(es, p, a, b);
    x := p[1];
    assert Arrow(es, p[0], p[1]);
    var q := p[1..];
    forall i | 0 < i < |q| ensures Arrow(es, q[i - 1], q[i]) {
      assert q[i] == p[i + 1] && q[i - 1] == p[i];
    }
    assert PathFromTo(es, q, x, b);
  }

  /** Everything below `a` other than `a` is the child of something below `a`. */
  lemma ReachViaParent(es: Edges, a: NodeId, b: NodeId) returns (x: NodeId)
    requires Reach(es, a, b) && a != b
    ensures Reach(es, a, x) && Arrow(es, x, b)
  {
    var p :| PathFromTo(es, p, a, b);
    x := p[|p| - 2];
    assert Arrow(es, p[|p| - 2], p[|p| - 1]);
    SubPath(es, p, 0, |p| - 2);
  }

  lemma ReachIsTarget(es: Edges, a: NodeId, b: NodeId)
    requires Reach(es, a, b) && a != b
    ensures b in Targets(es)
  {
    var p :| PathFromTo(es, p, a, b);
    assert Arrow(es, p[|p| - 2], p[|p| - 1]);
  }

  lemma BelowIsReach(es: Edges, a: NodeId)
    ensures forall b :: b in Below(es, a) <==> Reach(es, a, b)
  {
    ReachSelf(es, a);
    forall b | Reach(es, a, b) ensures b in Below(es, a) {
      if a != b { ReachIsTarget(es, a, b); }
    }
  }

  /** In an acyclic graph the subtree of a child is strictly smaller. */
  lemma BelowShrinks(es: Edges, a: NodeId, x: NodeId)
    requires Acyclic(es) && Arrow(es, a, x)
    ensures Below(es, x) < Below(es, a)
  {
    BelowIsReach(es, a);
    BelowIsReach(es, x);
    ReachArrow(es, a, x);
    forall b | b in Below(es, x) ensures b in Below(es, a) {
      ReachTransitive(es, a, x, b);
    }
    assert a in Below(es, a) && a !in Below(es, x);
  }

  /** Fewer arrows, fewer paths. */
  lemma ReachMonotone(es: Edges, es': Edges, a: NodeId, b: NodeId)
    requires forall x, y :: Arrow(es, x, y) ==> Arrow(es', x, y)
    requires Reach(es, a, b)
    ensures Reach(es', a, b)
  {
    var p :| PathFromTo(es, p, a, b);
    forall i | 0 < i < |p| ensures Arrow(es', p[i - 1], p[i]) {
      assert Arrow(es, p[i - 1], p[i]);
    }
    assert PathFromTo(es', p, a, b);
  }

  /** A path to `p` can be cut at its first visit of `p`, before it takes an arrow out of `p`. */
  lemma {:induction false} FirstVisit(es: Edges, es': Edges, path: seq<NodeId>, p: NodeId) returns (cut: seq<NodeId>)
    requires IsPath(es', path) && path[|path| - 1] == p
    requires forall x, y :: x != p && Arrow(es', x, y) ==> Arrow(es, x, y)
    ensures PathFromTo(es, cut, path[0], p)
    decreases |path|
  {
    if path[0] == p {
      cut := [p];
    } else {
      var rest := path[1..];
      forall i | 0 < i < |rest| ensures Arrow(es', rest[i - 1], rest[i]) {
        assert rest[i] == path[i + 1] && rest[i - 1] == path[i];
      }
      var tail := FirstVisit(es, es', rest, p);
      cut := [path[0]] + tail;
      assert Arrow(es', path[0], path[1]);
      forall i | 0 < i < |cut| ensures Arrow(es, cut[i - 1], cut[i]) {
        assert cut[i] == tail[i - 1];
        if i > 1 { assert cut[i - 1] == tail[i - 2]; }
      }
    }
  }

  // ---------------------------------------------------------------------------
  // Edits that keep the graph acyclic
  // ---------------------------------------------------------------------------

  lemma FewerArrowsAcyclic(es: Edges, es': Edges)
    requires Acyclic(es)
    requires forall x, y :: Arrow(es', x, y) ==> Arrow(es, x, y)
    ensures Acyclic(es')
  {
    forall x, y | Arrow(es', x, y) ensures !Reach(es', y, x) {
      if Reach(es', y, x) { ReachMonotone(es', es, y, x); }
    }
  }

  /** Letting one edge of node `p` point at `t` closes no cycle if `p` is not below `t`. */
  lemma NewArrowAcyclic(es: Edges, es': Edges, p: NodeId, t: NodeId)
    requires Acyclic(es) && !Reach(es, t, p)
    requires forall x, y :: Arrow(es', x, y) ==> Arrow(es, x, y) || (x == p && y == t)
    ensures Acyclic(es')
  {
    forall x, y | Arrow(es', x, y) ensures !Reach(es', y, x) {
      if Reach(es', y, x) {
        CycleUsesNewArrow(es, es', p, t, x, y);
      }
    }
  }

  /** A path of the new graph is one of the old graph, or it takes the new arrow. */
  lemma PathOldOrNew(es: Edges, es': Edges, p: NodeId, t: NodeId, a: NodeId, b: NodeId)
    requires forall x, y :: Arrow(es', x, y) ==> Arrow(es, x, y) || (x == p && y == t)
    requires Reach(es', a, b)
    ensures Reach(es, a, b) || (Reach(es', a, p) && Reach(es', t, b))
  {
    hide Arrow;
    var path :| PathFromTo(es', path, a, b);
    if !PathFromTo(es, path, a, b) {
      var i :| 0 < i < |path| && !Arrow(es, path[i - 1], path[i]);
      assert Arrow(es', path[i - 1], path[i]);
      SubPath(es', path, 0, i - 1);
      SubPath(es', path, i, |path| - 1);
    }
  }

  lemma SubPath(es: Edges, path: seq<NodeId>, i: nat, j: nat)
    requires IsPath(es, path) && i <= j < |path|
    ensures Reach(es, path[i], path[j])
  {
    hide Arrow;
    var q := path[i..j + 1];
    forall k | 0 < k < |q| ensures Arrow(es, q[k - 1], q[k]) {
      assert q[k] == path[i + k] && q[k - 1] == path[i + k - 1];
    }
    assert PathFromTo(es, q, path[i], path[j]);
  }

  lemma CycleUsesNewArrow(es: Edges, es': Edges, p: NodeId, t: NodeId, x: NodeId, y: NodeId)
    requires forall x, y :: Arrow(es', x, y) ==> Arrow(es, x, y) || (x == p && y == t)
    requires Arrow(es', x, y) && Reach(es', y, x)
    ensures Reach(es, t, p) || !Acyclic(es)
  {
    PathOldOrNew(es, es', p, t, y, x);
    if !Reach(es, y, x) {
      ReachArrow(es', x, y);
      ReachTransitive(es', t, x, y);
      ReachTransitive(es', t, y, p);
      NewReachIsOld(es, es', p, t);
    }
  }

  lemma NewReachIsOld(es: Edges, es': Edges, p: NodeId, t: NodeId)
    requires forall x, y :: Arrow(es', x, y) ==> Arrow(es, x, y) || (x == p && y == t)
    requires Reach(es', t, p)
    ensures Reach(es, t, p)
  {
    var path :| PathFromTo(es', path, t, p);
    var cut := FirstVisit(es, es', path, p);
  }
}
