/** The three traversals of the block graph: the recursive cycle check, the breadth-first
    search of `should_update_child` and the topological sort of `bdrv_topological_dfs`.
    Child lists are unordered here, so every result holds for every list order. */
module GraphSearch {

  import opened Wrappers
  import opened Graph

  /** The edges in `n->children`. */
  function ChildEdges(es: Edges, n: NodeId): set<EdgeId>
  {
    set e | e in es && es[e].owner == Some(n) && es[e].bs.Some?
  }

  /** `bdrv_recurse_has_child`. */
  predicate RecurseHasChild(es: Edges, bs: NodeId, child: NodeId)
    requires Acyclic(es)
    ensures RecurseHasChild(es, bs, child) <==> Reach(es, bs, child)
    decreases Below(es, bs)
  {
    RecurseStep(es, bs, child);
    bs == child ||
    exists c :: c in ChildEdges(es, bs) &&
      (ChildBelow(es, bs, c); RecurseHasChild(es, es[c].bs.value, child))
  }

  lemma ChildBelow(es: Edges, bs: NodeId, c: EdgeId)
    requires Acyclic(es) && c in ChildEdges(es, bs)
    ensures Arrow(es, bs, es[c].bs.value) && Below(es, es[c].bs.value) < Below(es, bs)
  {
    assert Links(es, c, bs, es[c].bs.value);
    BelowShrinks(es, bs, es[c].bs.value);
  }

  lemma RecurseStep(es: Edges, bs: NodeId, child: NodeId)
    ensures Reach(es, bs, child) <==>
            bs == child || exists c :: c in ChildEdges(es, bs) && Reach(es, es[c].bs.value, child)
  {
    if Reach(es, bs, child) && bs != child {
      var x := ReachViaChild(es, bs, child);
      var c :| c in es && Links(es, c, bs, x);
      assert c in ChildEdges(es, bs);
    }
    ReachSelf(es, bs);
    forall c | c in ChildEdges(es, bs) && Reach(es, es[c].bs.value, child) ensures Reach(es, bs, child) {
      assert Links(es, c, bs, es[c].bs.value);
      ReachArrow(es, bs, es[c].bs.value);
      ReachTransitive(es, bs, es[c].bs.value, child);
    }
  }

  /** Edge `c` hangs somewhere in the subtree of `top`. */
  ghost predicate HangsBelow(es: Edges, c: EdgeId, top: NodeId)
  {
    c in es && es[c].bs.Some? && es[c].owner.Some? && Reach(es, top, es[c].owner.value)
  }

  /** Edge `c` hangs on one of the nodes in `vs`. */
  ghost predicate HangsOn(es: Edges, c: EdgeId, vs: set<NodeId>)
  {
    c in es && es[c].bs.Some? && es[c].owner.Some? && es[c].owner.value in vs
  }

  /** All children of the nodes in `vs` are in `found`. */
  ghost predicate ChildrenIn(es: Edges, vs: set<NodeId>, found: set<NodeId>)
  {
    forall v, e :: v in vs && e in ChildEdges(es, v) ==> es[e].bs.value in found
  }

  /** `should_update_child`. */
  method ShouldUpdateChild(es: Edges, c: EdgeId, top: NodeId) returns (ret: bool)
    requires c in es
    ensures ret <==> !es[c].stayAtNode && !HangsBelow(es, c, top)
  {
    if es[c].stayAtNode {
      return false;
    }
    ret := true;
    var found := {top};
    var queue := [top];
    ghost var done: set<NodeId> := {};
    BelowIsReach(es, top);
    while queue != []
      invariant top in found && found <= Below(es, top)
      invariant found == done + (set v | v in queue)
      invariant ret <==> !HangsOn(es, c, done)
      invariant ret ==> ChildrenIn(es, done, found)
      decreases Below(es, top) - found, |queue|
    {
      var v := queue[0];
      queue := queue[1..];
      ret, found, queue := ScanChildren(es, c, top, v, done, ret, found, queue);
      done := done + {v};
    }
    if ret {
      ClosedIsEverything(es, top, found);
    }
  }

  /** The inner loop of `should_update_child`: look at the children of `v`. */
  method ScanChildren(es: Edges, c: EdgeId, ghost top: NodeId, v: NodeId, ghost done: set<NodeId>,
                      ret0: bool, found0: set<NodeId>, queue0: seq<NodeId>)
    returns (ret: bool, found: set<NodeId>, queue: seq<NodeId>)
    requires c in es && v in found0 && found0 <= Below(es, top)
    requires found0 == done + {v} + (set w | w in queue0)
    requires ret0 <==> !HangsOn(es, c, done)
    requires ret0 ==> ChildrenIn(es, done, found0)
    ensures found0 <= found <= Below(es, top) && found == done + {v} + (set w | w in queue)
    ensures ret <==> !HangsOn(es, c, done + {v})
    ensures ret ==> ChildrenIn(es, done + {v}, found)
    ensures found == found0 ==> queue == queue0
  {
    ret, found, queue := ret0, found0, queue0;
    var todo := ChildEdges(es, v);
    while todo != {}
      invariant todo <= ChildEdges(es, v)
      invariant found0 <= found <= Below(es, top) && found == done + {v} + (set w | w in queue)
      invariant ret == ret0 && c !in ChildEdges(es, v) - todo
      invariant forall e :: e in ChildEdges(es, v) - todo ==> es[e].bs.value in found
      invariant found == found0 ==> queue == queue0
      decreases todo
    {
      var c2 :| c2 in todo;
      todo := todo - {c2};
      if c2 == c {
        ret := false;
        return;
      }
      var w := es[c2].bs.value;
      if w !in found {
        StaysBelow(es, top, v, c2);
        queue := queue + [w];
        found := found + {w};
      }
    }
  }

  lemma StaysBelow(es: Edges, top: NodeId, v: NodeId, e: EdgeId)
    requires v in Below(es, top) && e in ChildEdges(es, v)
    ensures es[e].bs.value in Below(es, top)
  {
    BelowIsReach(es, top);
    assert Links(es, e, v, es[e].bs.value);
    ReachArrow(es, v, es[e].bs.value);
    ReachTransitive(es, top, v, es[e].bs.value);
  }

  /** A set that holds `top` and is closed under children holds the whole subtree. */
  lemma ClosedIsEverything(es: Edges, top: NodeId, found: set<NodeId>)
    requires top in found && ChildrenIn(es, found, found)
    ensures Below(es, top) <= found
  {
    BelowIsReach(es, top);
    forall b | Reach(es, top, b) ensures b in found {
      var p :| PathFromTo(es, p, top, b);
      PathStaysIn(es, p, |p| - 1, found);
    }
  }

  lemma {:induction false} PathStaysIn(es: Edges, p: seq<NodeId>, i: nat, found: set<NodeId>)
    requires IsPath(es, p) && i < |p| && p[0] in found && ChildrenIn(es, found, found)
    ensures p[i] in found
  {
    if i > 0 {
      PathStaysIn(es, p, i - 1, found);
      assert Arrow(es, p[i - 1], p[i]);
      var e :| e in es && Links(es, e, p[i - 1], p[i]);
      assert e in ChildEdges(es, p[i - 1]);
    }
  }

  // ---------------------------------------------------------------------------
  // Topological sort
  // ---------------------------------------------------------------------------

  ghost function Elems(list: seq<NodeId>): set<NodeId>
  {
    set x | x in list
  }

  /** Duplicate-free, closed under children, every node before all its children. */
  ghost predicate Sorted(es: Edges, list: seq<NodeId>)
  {
    && (forall i, j :: 0 <= i < j < |list| ==> list[i] != list[j])
    && (forall x, y :: x in list && Arrow(es, x, y) ==> y in list)
    && (forall i, j :: 0 <= i < |list| && 0 <= j < |list| && Arrow(es, list[i], list[j]) ==> i < j)
  }

  lemma SortedClosed(es: Edges, list: seq<NodeId>, x: NodeId)
    requires Sorted(es, list) && x in list
    ensures Below(es, x) <= Elems(list)
  {
    forall v, e | v in Elems(list) && e in ChildEdges(es, v) ensures es[e].bs.value in Elems(list) {
      assert Links(es, e, v, es[e].bs.value);
    }
    ClosedIsEverything(es, x, Elems(list));
  }

  /** All nodes of the list are below one of the roots, and all nodes below a root are in it. */
  ghost predicate ExactlyBelow(es: Edges, list: seq<NodeId>, roots: set<NodeId>)
  {
    forall b :: b in list <==> exists r :: r in roots && b in Below(es, r)
  }

  lemma PrependSorted(es: Edges, list: seq<NodeId>, bs: NodeId)
    requires Acyclic(es) && Sorted(es, list) && bs !in list
    requires forall e :: e in ChildEdges(es, bs) ==> es[e].bs.value in list
    ensures Sorted(es, [bs] + list)
  {
    var list' := [bs] + list;
    ReachSelf(es, bs);
    forall x, y | x in list' && Arrow(es, x, y) ensures y in list' {
      if x == bs {
        var e :| e in es && Links(es, e, bs, y);
        assert e in ChildEdges(es, bs);
      }
    }
    forall i, j | 0 <= i < |list'| && 0 <= j < |list'| && Arrow(es, list'[i], list'[j]) ensures i < j {
      if i > 0 && j > 0 {
        assert Arrow(es, list[i - 1], list[j - 1]);
      }
    }
  }

  /** A node on the way down from `gray` is never met again below. */
  lemma GrayStaysAbove(es: Edges, gray: set<NodeId>, bs: NodeId, e: EdgeId)
    requires Acyclic(es) && e in ChildEdges(es, bs)
    requires forall x :: x in gray ==> x != bs && Reach(es, x, bs)
    ensures forall x :: x in gray + {bs} ==> x != es[e].bs.value && Reach(es, x, es[e].bs.value)
  {
    var y := es[e].bs.value;
    assert Links(es, e, bs, y);
    ReachArrow(es, bs, y);
    ReachSelf(es, bs);
    forall x | x in gray + {bs} ensures x != y && Reach(es, x, y) {
      if x in gray { ReachTransitive(es, x, bs, y); }
    }
  }

  /** `bdrv_topological_dfs`.  `gray` holds the nodes whose children are still being visited. */
  method TopologicalDfs(es: Edges, list: seq<NodeId>, found: set<NodeId>, bs: NodeId, ghost gray: set<NodeId>)
    returns (list': seq<NodeId>, found': set<NodeId>)
    requires Acyclic(es) && Sorted(es, list)
    requires gray !! Elems(list) && found == gray + Elems(list)
    requires forall x :: x in gray ==> x != bs && Reach(es, x, bs)
    ensures Sorted(es, list')
    ensures Elems(list') == Elems(list) + Below(es, bs)
    ensures gray !! Elems(list') && found' == gray + Elems(list')
    decreases Below(es, bs)
  {
    list', found' := list, found;
    if bs in found {
      SortedClosed(es, list, bs);
      return;
    }
    found' := found' + {bs};
    var todo := ChildEdges(es, bs);
    while todo != {}
      invariant todo <= ChildEdges(es, bs)
      invariant Sorted(es, list') && Elems(list) <= Elems(list') <= Elems(list) + (Below(es, bs) - {bs})
      invariant gray + {bs} !! Elems(list') && found' == gray + {bs} + Elems(list')
      invariant forall e :: e in ChildEdges(es, bs) - todo ==> es[e].bs.value in Elems(list')
      decreases todo
    {
      var child :| child in todo;
      todo := todo - {child};
      GrayStaysAbove(es, gray, bs, child);
      ChildWithout(es, bs, child);
      list', found' := TopologicalDfs(es, list', found', es[child].bs.value, gray + {bs});
    }
    NodeDone(es, list, list', gray, bs);
    list', found' := [bs] + list', found';
  }

  /** After all children have been visited, `bs` goes to the front. */
  lemma NodeDone(es: Edges, before: seq<NodeId>, list: seq<NodeId>, gray: set<NodeId>, bs: NodeId)
    requires Acyclic(es) && Sorted(es, list) && bs !in Elems(list)
    requires Elems(before) <= Elems(list) <= Elems(before) + (Below(es, bs) - {bs})
    requires forall e :: e in ChildEdges(es, bs) ==> es[e].bs.value in Elems(list)
    ensures Sorted(es, [bs] + list)
    ensures Elems([bs] + list) == Elems(before) + Below(es, bs)
    ensures Elems([bs] + list) == {bs} + Elems(list)
  {
    forall e | e in ChildEdges(es, bs) ensures es[e].bs.value in list {
      assert es[e].bs.value in Elems(list);
    }
    assert bs in Elems(list) <==> bs in list;
    PrependSorted(es, list, bs);
    SortedClosed(es, [bs] + list, bs);
    assert Elems([bs] + list) == {bs} + Elems(list);
  }

  lemma ChildWithout(es: Edges, bs: NodeId, e: EdgeId)
    requires Acyclic(es) && e in ChildEdges(es, bs)
    ensures Below(es, es[e].bs.value) < Below(es, bs)
    ensures Below(es, es[e].bs.value) <= Below(es, bs) - {bs}
    ensures es[e].bs.value in Below(es, es[e].bs.value)
  {
    ChildBelow(es, bs, e);
    BelowIsReach(es, es[e].bs.value);
  }

  /** The loop of `bdrv_list_refresh_perms`: one table `found` for all roots. */
  method TopologicalDfsAll(es: Edges, roots: seq<NodeId>) returns (list: seq<NodeId>)
    requires Acyclic(es)
    ensures Sorted(es, list) && ExactlyBelow(es, list, Elems(roots))
  {
    list := [];
    var found: set<NodeId> := {};
    for k := 0 to |roots|
      invariant Sorted(es, list) && found == Elems(list)
      invariant ExactlyBelow(es, list, Elems(roots[..k]))
    {
      ghost var before := list;
      list, found := TopologicalDfs(es, list, found, roots[k], {});
      assert Elems(roots[..k + 1]) == Elems(roots[..k]) + {roots[k]};
      forall b ensures b in list <==> exists r :: r in Elems(roots[..k + 1]) && b in Below(es, r) {
        assert b in list <==> b in Elems(list);
        assert b in before <==> b in Elems(before);
      }
    }
    assert roots[..|roots|] == roots;
  }

  // ---------------------------------------------------------------------------
  // Backing chains
  // ---------------------------------------------------------------------------

  /** `below` is `bdrv_filter_or_cow_child`: it picks a child edge of the node, or none. */
  ghost predicate Picks(es: Edges, below: NodeId -> Option<EdgeId>)
  {
    forall n: NodeId :: below(n).Some? ==>
      below(n).value in es && es[below(n).value].owner == Some(n) && es[below(n).value].bs.Some?
  }

  /** The walk from `n` down to `base`, or to the end of the chain if there is no base, takes exactly
      the edges in `chain`. */
  ghost predicate IsChain(es: Edges, below: NodeId -> Option<EdgeId>, chain: seq<EdgeId>, n: NodeId,
                          base: Option<NodeId>)
    decreases |chain|
  {
    if chain == [] then base == Some(n) || (base.None? && below(n).None?)
    else
      && base != Some(n) && below(n) == Some(chain[0]) && chain[0] in es && es[chain[0]].bs.Some?
      && IsChain(es, below, chain[1..], es[chain[0]].bs.value, base)
  }

  lemma {:induction false} ChainEdges(es: Edges, below: NodeId -> Option<EdgeId>, chain: seq<EdgeId>, n: NodeId,
                                      base: Option<NodeId>, e: EdgeId)
    requires IsChain(es, below, chain, n, base) && e in chain
    ensures e in es && es[e].bs.Some?
    decreases |chain|
  {
    if e != chain[0] {
      assert e in chain[1..];
      ChainEdges(es, below, chain[1..], es[chain[0]].bs.value, base, e);
    }
  }

  /** There is only one such walk. */
  lemma {:induction false} ChainUnique(es: Edges, below: NodeId -> Option<EdgeId>, chain: seq<EdgeId>,
                                       chain': seq<EdgeId>, n: NodeId, base: Option<NodeId>)
    requires IsChain(es, below, chain, n, base) && IsChain(es, below, chain', n, base)
    ensures chain == chain'
    decreases |chain|
  {
    if chain != [] && chain' != [] {
      ChainUnique(es, below, chain[1..], chain'[1..], es[chain[0]].bs.value, base);
      assert chain == [chain[0]] + chain[1..] && chain' == [chain'[0]] + chain'[1..];
    }
  }

  /** The walk along a backing chain ends, and at `base` if that is on the way. */
  method WalkChain(es: Edges, below: NodeId -> Option<EdgeId>, bs: NodeId, base: Option<NodeId>)
    returns (chain: seq<EdgeId>)
    requires Acyclic(es) && Picks(es, below)
    requires base.Some? ==> exists c :: IsChain(es, below, c, bs, base)
    ensures IsChain(es, below, chain, bs, base)
  {
    var i := bs;
    chain := [];
    assert forall rest: seq<EdgeId> :: [] + rest == rest;
    while base != Some(i) && below(i).Some?
      invariant forall rest :: IsChain(es, below, rest, i, base) ==> IsChain(es, below, chain + rest, bs, base)
      invariant base.Some? ==> exists c :: IsChain(es, below, c, i, base)
      decreases Below(es, i)
    {
      var e := below(i).value;
      var n := es[e].bs.value;
      assert Links(es, e, i, n);
      BelowShrinks(es, i, n);
      forall rest | IsChain(es, below, rest, n, base) ensures IsChain(es, below, chain + [e] + rest, bs, base) {
        assert ([e] + rest)[1..] == rest;
        assert IsChain(es, below, [e] + rest, i, base);
        assert chain + [e] + rest == chain + ([e] + rest);
      }
      if base.Some? {
        ghost var c :| IsChain(es, below, c, i, base);
        assert IsChain(es, below, c[1..], n, base);
      }
      chain := chain + [e];
      i := n;
    }
    if base.Some? {
      ghost var c :| IsChain(es, below, c, i, base);
    }
    assert IsChain(es, below, [], i, base);
    assert chain + [] == chain;
  }
}
