/** Whose options a node inherits (`inherits_from` in `qemu/block.c`). */
module Inheritance {

  import opened Wrappers
  import opened Permissions
  import opened Graph

  /** `n->inherits_from`.  A node that has been freed inherits from nobody. */
  function InheritsNext(inherits: map<NodeId, Option<NodeId>>, n: NodeId): Option<NodeId>
  {
    if n in inherits then inherits[n] else None
  }

  /** The pointers as the arrows of a graph. */
  function Pointers(inherits: map<NodeId, Option<NodeId>>): Edges
  {
    map n | n in inherits && inherits[n].Some? :: Edge(Some(n), inherits[n], Data, Grant({}, {}), false, false)
  }

  /** `child` inherits its options from `parent`, directly or through other nodes. */
  ghost predicate InheritsFrom(inherits: map<NodeId, Option<NodeId>>, child: NodeId, parent: NodeId)
  {
    Reach(Pointers(inherits), child, parent)
  }

  /** Nobody inherits from itself. */
  ghost predicate InheritsOk(inherits: map<NodeId, Option<NodeId>>)
  {
    Acyclic(Pointers(inherits))
  }

  lemma PointerArrow(inherits: map<NodeId, Option<NodeId>>, x: NodeId, y: NodeId)
    ensures Arrow(Pointers(inherits), x, y) <==> InheritsNext(inherits, x) == Some(y)
  {
    if InheritsNext(inherits, x) == Some(y) { assert Links(Pointers(inherits), x, x, y); }
  }

  lemma NothingInherited()
    ensures InheritsOk(map[])
  {}

  /** Pointers may be cleared. */
  lemma FewerPointers(inherits: map<NodeId, Option<NodeId>>, inherits': map<NodeId, Option<NodeId>>)
    requires InheritsOk(inherits)
    requires forall n :: n in inherits' ==> inherits'[n] == None || inherits'[n] == InheritsNext(inherits, n)
    ensures InheritsOk(inherits')
  {
    forall x, y | Arrow(Pointers(inherits'), x, y) ensures Arrow(Pointers(inherits), x, y) {
      PointerArrow(inherits', x, y);
      PointerArrow(inherits, x, y);
    }
    FewerArrowsAcyclic(Pointers(inherits), Pointers(inherits'));
  }

  /** A node may inherit from another one that does not inherit from it. */
  lemma NewPointer(inherits: map<NodeId, Option<NodeId>>, n: NodeId, parent: NodeId)
    requires InheritsOk(inherits) && !InheritsFrom(inherits, parent, n)
    ensures InheritsOk(inherits[n := Some(parent)])
  {
    var es, es' := Pointers(inherits), Pointers(inherits[n := Some(parent)]);
    forall x, y | Arrow(es', x, y) ensures Arrow(es, x, y) || (x == n && y == parent) {
      PointerArrow(inherits[n := Some(parent)], x, y);
      PointerArrow(inherits, x, y);
    }
    NewArrowAcyclic(es, es', n, parent);
  }

  /** If `child` inherits from `parent`, then `parent` does not inherit from `child`, also after some
      pointers have been cleared. */
  lemma NotBothWays(inherits: map<NodeId, Option<NodeId>>, inherits': map<NodeId, Option<NodeId>>,
                    child: NodeId, parent: NodeId)
    requires InheritsOk(inherits) && InheritsFrom(inherits, child, parent) && child != parent
    requires forall n :: n in inherits' ==> inherits'[n] == None || inherits'[n] == InheritsNext(inherits, n)
    ensures !InheritsFrom(inherits', parent, child)
  {
    var es, es' := Pointers(inherits), Pointers(inherits');
    if Reach(es', parent, child) {
      forall x, y | Arrow(es', x, y) ensures Arrow(es, x, y) {
        PointerArrow(inherits', x, y);
        PointerArrow(inherits, x, y);
      }
      ReachMonotone(es', es, parent, child);
      var x := ReachViaChild(es, child, parent);
      ReachTransitive(es, x, parent, child);
      assert false;
    }
  }

  /** Nobody inherits from a node that nobody points to. */
  lemma NobodyInherits(inherits: map<NodeId, Option<NodeId>>, m: NodeId, n: NodeId)
    requires m != n && forall k :: k in inherits ==> inherits[k] != Some(n)
    ensures !InheritsFrom(inherits, m, n)
  {
    if InheritsFrom(inherits, m, n) {
      ReachIsTarget(Pointers(inherits), m, n);
      assert false;
    }
  }

  /** `bdrv_inherits_from_recursive`: the loop ends because nobody inherits from itself. */
  method InheritsFromRecursive(inherits: map<NodeId, Option<NodeId>>, child: NodeId, parent: NodeId)
    returns (found: bool)
    requires InheritsOk(inherits)
    ensures found <==> InheritsFrom(inherits, child, parent)
  {
    ghost var es := Pointers(inherits);
    var cur: Option<NodeId> := Some(child);
    while cur.Some? && cur.value != parent
      invariant InheritsFrom(inherits, child, parent) <==> cur.Some? && InheritsFrom(inherits, cur.value, parent)
      decreases if cur.Some? then Below(es, cur.value) else {}
    {
      var n := cur.value;
      cur := InheritsNext(inherits, n);
      NextStep(inherits, n, parent);
    }
    found := cur.Some?;
    if found { ReachSelf(es, parent); }
  }

  lemma NextStep(inherits: map<NodeId, Option<NodeId>>, n: NodeId, parent: NodeId)
    requires InheritsOk(inherits) && n != parent
    ensures var next := InheritsNext(inherits, n);
            && (InheritsFrom(inherits, n, parent) <==> next.Some? && InheritsFrom(inherits, next.value, parent))
            && Below(Pointers(inherits), n) != {}
            && (next.Some? ==> Below(Pointers(inherits), next.value) < Below(Pointers(inherits), n))
  {
    var es, next := Pointers(inherits), InheritsNext(inherits, n);
    if next.Some? {
      PointerArrow(inherits, n, next.value);
      BelowShrinks(es, n, next.value);
      ReachArrow(es, n, next.value);
      if InheritsFrom(inherits, next.value, parent) { ReachTransitive(es, n, next.value, parent); }
    }
    if InheritsFrom(inherits, n, parent) {
      var x := ReachViaChild(es, n, parent);
      PointerArrow(inherits, n, x);
    }
    assert n in Below(es, n);
  }
}
