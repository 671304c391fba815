/** What the compound graph edits do to the edges, and that a permission refresh after them
    restores the permission invariant of the whole graph. */
module GraphEdits {

  import opened Wrappers
  import opened Permissions
  import opened Graph
  import opened GraphSearch
  import opened RefreshPerms
  import opened Inheritance

  /** The edge that `bdrv_attach_child_noperm` makes. */
  ghost function NewEdge(w: World, es: Edges, parent: NodeId, child: NodeId, role: Role): Edge
  {
    Edge(Some(parent), Some(child), role,
         ChildGrant(w, parent, role, child, Cumulative(es, parent)), false, false)
  }

  // ---------------------------------------------------------------------------
  // Replacing a node
  // ---------------------------------------------------------------------------

  /** `should_update_child`. */
  ghost predicate Movable(es: Edges, e: EdgeId, to: NodeId)
  {
    e in es && !es[e].stayAtNode && !HangsBelow(es, e, to)
  }

  /** Edge `e` has to point at `to` instead of `from`. */
  ghost predicate Moves(es: Edges, e: EdgeId, from: NodeId, to: NodeId)
  {
    e in Parents(es, from) && Movable(es, e, to)
  }

  /** `bdrv_replace_node_noperm` can move every user of `from` that it has to. */
  ghost predicate AllMayMove(es: Edges, from: NodeId, to: NodeId, autoSkip: bool)
  {
    MayMove(es, Parents(es, from), to, autoSkip)
  }

  ghost predicate MayMove(es: Edges, users: set<EdgeId>, to: NodeId, autoSkip: bool)
  {
    forall e :: e in users && e in es ==> if Movable(es, e, to) then !es[e].frozen else autoSkip
  }

  lemma NobodyYet(es: Edges, from: NodeId, to: NodeId, autoSkip: bool)
    ensures MayMove(es, Parents(es, from) - Parents(es, from), to, autoSkip)
  {}

  lemma MayMoveNext(es: Edges, from: NodeId, todo: set<EdgeId>, e: EdgeId, to: NodeId, autoSkip: bool)
    requires e in todo && todo <= Parents(es, from) && MayMove(es, Parents(es, from) - todo, to, autoSkip)
    ensures MayMove(es, Parents(es, from) - (todo - {e}), to, autoSkip) <==>
            if Movable(es, e, to) then !es[e].frozen else autoSkip
    ensures MayMove(es, Parents(es, from), to, autoSkip) ==> MayMove(es, Parents(es, from) - (todo - {e}), to, autoSkip)
  {
    assert Parents(es, from) - (todo - {e}) == (Parents(es, from) - todo) + {e};
  }

  /** No user that points at its new node already gets as far as being moved there. */
  ghost predicate NoMoveToSelf(es: Edges, from: NodeId, to: NodeId)
  {
    from == to ==> forall e :: Moves(es, e, from, to) ==> es[e].frozen
  }

  /** The edges after `bdrv_replace_node_noperm`; the users in `todo` are still missing. */
  ghost function RedirectedBut(es: Edges, from: NodeId, to: NodeId, todo: set<EdgeId>): Edges
  {
    map e | e in es :: if Moves(es, e, from, to) && e !in todo then es[e].(bs := Some(to)) else es[e]
  }

  ghost function Redirected(es: Edges, from: NodeId, to: NodeId): Edges
  {
    RedirectedBut(es, from, to, {})
  }

  /** Edges that hang outside the subtree of `top` do not matter for that subtree. */
  lemma SameSubtree(es: Edges, es': Edges, top: NodeId, x: NodeId)
    requires forall e, n :: e in es && es[e].owner == Some(n) && Reach(es, top, n) ==> e in es' && es'[e] == es[e]
    requires forall e, n :: e in es' && es'[e].owner == Some(n) && Reach(es, top, n) ==> e in es && es[e] == es'[e]
    ensures Reach(es', top, x) <==> Reach(es, top, x)
  {
    if Reach(es, top, x) {
      var p :| PathFromTo(es, p, top, x);
      PathSurvives(es, es', top, p, |p| - 1);
    }
    if Reach(es', top, x) {
      var p :| PathFromTo(es', p, top, x);
      PathWasThere(es, es', top, p, |p| - 1);
    }
  }

  lemma {:induction false} PathSurvives(es: Edges, es': Edges, top: NodeId, p: seq<NodeId>, k: nat)
    requires forall e, n :: e in es && es[e].owner == Some(n) && Reach(es, top, n) ==> e in es' && es'[e] == es[e]
    requires IsPath(es, p) && p[0] == top && k < |p|
    ensures Reach(es', top, p[k])
  {
    if k == 0 {
      ReachSelf(es', top);
    } else {
      PathSurvives(es, es', top, p, k - 1);
      SubPath(es, p, 0, k - 1);
      assert Arrow(es, p[k - 1], p[k]);
      var e :| e in es && Links(es, e, p[k - 1], p[k]);
      assert Links(es', e, p[k - 1], p[k]);
      ReachArrow(es', p[k - 1], p[k]);
      ReachTransitive(es', top, p[k - 1], p[k]);
    }
  }

  lemma {:induction false} PathWasThere(es: Edges, es': Edges, top: NodeId, p: seq<NodeId>, k: nat)
    requires forall e, n :: e in es' && es'[e].owner == Some(n) && Reach(es, top, n) ==> e in es && es[e] == es'[e]
    requires IsPath(es', p) && p[0] == top && k < |p|
    ensures Reach(es, top, p[k])
  {
    if k == 0 {
      ReachSelf(es, top);
    } else {
      PathWasThere(es, es', top, p, k - 1);
      assert Arrow(es', p[k - 1], p[k]);
      var e :| e in es' && Links(es', e, p[k - 1], p[k]);
      assert Links(es, e, p[k - 1], p[k]);
      ReachArrow(es, p[k - 1], p[k]);
      ReachTransitive(es, top, p[k - 1], p[k]);
    }
  }

  /** Moving users to `to` does not change which other users may be moved to it. */
  lemma MovableUnchanged(es: Edges, from: NodeId, to: NodeId, todo: set<EdgeId>, e: EdgeId)
    requires e in es && (e in todo || !Moves(es, e, from, to))
    ensures Movable(RedirectedBut(es, from, to, todo), e, to) <==> Movable(es, e, to)
    ensures e in RedirectedBut(es, from, to, todo) && RedirectedBut(es, from, to, todo)[e] == es[e]
  {
    var es' := RedirectedBut(es, from, to, todo);
    assert es'[e] == es[e];
    if es[e].owner.Some? {
      SameSubtree(es, es', to, es[e].owner.value);
    }
  }

  lemma RedirectedNone(es: Edges, from: NodeId, to: NodeId)
    ensures RedirectedBut(es, from, to, Parents(es, from)) == es
  {}

  lemma RedirectOne(es: Edges, from: NodeId, to: NodeId, todo: set<EdgeId>, e: EdgeId)
    requires e in todo && e in Parents(es, from)
    ensures var es' := RedirectedBut(es, from, to, todo);
            RedirectedBut(es, from, to, todo - {e}) ==
              if Movable(es, e, to) then es'[e := es'[e].(bs := Some(to))] else es'
  {}

  // ---------------------------------------------------------------------------
  // Permissions after the edits
  // ---------------------------------------------------------------------------

  /** The permissions of the whole graph are in order. */
  ghost predicate PermsOk(w: World, es: Edges)
  {
    Monotone(w) && PermInv(w, es)
  }

  /** Without edges there is nothing to be out of order. */
  lemma EmptyPerms(w: World)
    requires Monotone(w)
    ensures PermsOk(w, map[])
  {
    forall n: NodeId ensures InOrder(w, map[], n) {
      assert Parents(map[], n) == {};
    }
  }

  lemma RootInList(es: Edges, list: seq<NodeId>, roots: set<NodeId>, r: NodeId)
    requires ExactlyBelow(es, list, roots) && r in roots
    ensures r in list
  {
    assert r in Below(es, r);
  }

  /** Attaching a new edge, possibly after detaching the old one in its place. */
  lemma AttachRestores(w: World, base: Edges, es: Edges, e: EdgeId, list: seq<NodeId>)
    requires PermsOk(w, base) && Sorted(es, list) && e in es && es[e].bs.Some?
    requires forall c :: c in es && c != e && es[c].bs.Some? ==> c in base && base[c] == es[c]
    requires es[e].bs.value in list || (es[e].owner.Some? && es[e].owner.value in list)
    requires es[e].owner.Some? ==> es[e].owner.value in list
    requires RefreshList(w, es, list).0 == Fine
    ensures PermsOk(w, RefreshList(w, es, list).1)
  {
    if es[e].owner.Some? { assert Links(es, e, es[e].owner.value, es[e].bs.value); }
    RefreshRestoresInv(w, base, es, list);
  }

  /** `bdrv_attach_child` keeps the permissions in order. */
  lemma AttachPerms(w: World, base: Edges, parent: NodeId, child: NodeId, role: Role, e: EdgeId, list: seq<NodeId>)
    requires PermsOk(w, base) && e !in base
    requires var es := base[e := NewEdge(w, base, parent, child, role)];
             Sorted(es, list) && ExactlyBelow(es, list, {parent}) && RefreshList(w, es, list).0 == Fine
    ensures PermsOk(w, RefreshList(w, base[e := NewEdge(w, base, parent, child, role)], list).1)
  {
    var es := base[e := NewEdge(w, base, parent, child, role)];
    RootInList(es, list, {parent}, parent);
    AttachRestores(w, base, es, e, list);
  }

  /** The edge of a user outside the graph; that of a job stays at its node. */
  function UserEdge(child: NodeId, role: Role, grant: Grant, stay: bool): Edge
  {
    Edge(None, Some(child), role, grant, false, stay)
  }

  /** A refresh leaves the edge of a user outside the graph alone. */
  lemma RootEdgeKept(w: World, base: Edges, e: EdgeId, child: NodeId, role: Role, grant: Grant, stay: bool,
                     list: seq<NodeId>)
    ensures var es := RefreshList(w, base[e := UserEdge(child, role, grant, stay)], list).1;
            && es.Keys == base.Keys + {e}
            && es[e] == Edge(None, Some(child), role, grant, false, stay)
  {
    RefreshOnlyGrants(w, base[e := UserEdge(child, role, grant, stay)], list);
  }

  /** `bdrv_root_attach_child` keeps the permissions in order. */
  lemma RootAttachPerms(w: World, base: Edges, child: NodeId, role: Role, grant: Grant, stay: bool,
                        e: EdgeId, list: seq<NodeId>)
    requires PermsOk(w, base) && e !in base
    requires var es := base[e := UserEdge(child, role, grant, stay)];
             Sorted(es, list) && ExactlyBelow(es, list, {child}) && RefreshList(w, es, list).0 == Fine
    ensures PermsOk(w, RefreshList(w, base[e := UserEdge(child, role, grant, stay)], list).1)
  {
    var es := base[e := UserEdge(child, role, grant, stay)];
    RootInList(es, list, {child}, child);
    AttachRestores(w, base, es, e, list);
  }

  /** Freeing edges keeps the permissions in order, and freeing detached edges does not matter. */
  lemma FreeingKeepsPerms(w: World, es: Edges, gone: set<EdgeId>)
    ensures PermsOk(w, es) ==> PermsOk(w, es - gone)
    ensures (forall e :: e in gone && e in es ==> es[e].bs.None?) ==> (PermsOk(w, es - gone) <==> PermsOk(w, es))
  {
    if PermsOk(w, es) {
      RemovalKeepsInv(w, es - gone, es);
    } else if PermsOk(w, es - gone) && forall e :: e in gone && e in es ==> es[e].bs.None? {
      RemovalKeepsInv(w, es, es - gone);
    }
  }

  ghost function Detached(es: Edges, d: Option<EdgeId>): Edges
  {
    if d.Some? && d.value in es then es[d.value := es[d.value].(bs := None)] else es
  }

  /** What the owner of edge `e` needs, if the edge leads to `to`, is what the edge carries: a
      refresh that starts below does not recompute the edge. */
  ghost predicate StaysCovered(w: World, es: Edges, e: EdgeId, to: NodeId)
    requires e in es
  {
    es[e].owner.Some? && Recomputes(w, es[e].owner.value) ==>
      Looser(ChildGrant(w, es[e].owner.value, es[e].role, to, Cumulative(es, es[e].owner.value)), es[e].grant)
  }

  /** Every user that is moved from `from` to `to` carries what its owner needs from `to`. */
  ghost predicate MovedCovered(w: World, es: Edges, from: NodeId, to: NodeId)
  {
    forall e :: Moves(es, e, from, to) ==> StaysCovered(w, es, e, to)
  }

  /** A path that is not in the old graph passes through `t`, if that is where all new arrows lead. */
  lemma PathOldOrVia(es: Edges, es': Edges, t: NodeId, a: NodeId, b: NodeId)
    requires forall x, y :: Arrow(es', x, y) ==> Arrow(es, x, y) || y == t
    requires Reach(es', a, b)
    ensures Reach(es, a, b) || Reach(es', t, b)
  {
    hide Arrow;
    var path :| PathFromTo(es', path, a, b);
    if !PathFromTo(es, path, a, b) {
      var i :| 0 < i < |path| && !Arrow(es, path[i - 1], path[i]);
      assert Arrow(es', path[i - 1], path[i]);
      SubPath(es', path, i, |path| - 1);
    }
  }

  /** Nothing moves inside the subtree of `to`. */
  lemma RedirectedSubtree(es: Edges, from: NodeId, to: NodeId, x: NodeId)
    ensures Reach(Redirected(es, from, to), to, x) <==> Reach(es, to, x)
  {
    SameSubtree(es, Redirected(es, from, to), to, x);
  }

  lemma DetachedArrows(es: Edges, d: Option<EdgeId>, a: NodeId, b: NodeId)
    requires Reach(Detached(es, d), a, b)
    ensures Reach(es, a, b)
  {
    var es' := Detached(es, d);
    forall x, y | Arrow(es', x, y) ensures Arrow(es, x, y) {
      var e :| e in es' && Links(es', e, x, y);
      assert Links(es, e, x, y);
    }
    ReachMonotone(es', es, a, b);
  }

  /** The owner of a user that moves is neither below `from` nor below `to` afterwards. */
  lemma MovedFromAbove(es: Edges, from: NodeId, to: NodeId, d: Option<EdgeId>, e: EdgeId)
    requires Moves(es, e, from, to) && es[e].owner.Some?
    ensures !Reach(Detached(Redirected(es, from, to), d), to, es[e].owner.value)
    ensures Acyclic(es) ==> !Reach(Detached(Redirected(es, from, to), d), from, es[e].owner.value)
  {
    var n, es1 := es[e].owner.value, Redirected(es, from, to);
    RedirectedSubtree(es, from, to, n);
    if Reach(Detached(es1, d), to, n) {
      DetachedArrows(es1, d, to, n);
      assert false;
    }
    if Acyclic(es) && Reach(Detached(es1, d), from, n) {
      DetachedArrows(es1, d, from, n);
      forall x, y | Arrow(es1, x, y) ensures Arrow(es, x, y) || y == to {
        var c :| c in es1 && Links(es1, c, x, y);
        assert y == to || Links(es, c, x, y);
      }
      PathOldOrVia(es, es1, to, from, n);
      assert Links(es, e, n, from);
      assert false;
    }
  }

  /** The edge that `detach_subchain` removes leads to `to`, which is not `from`. */
  predicate LeadsTo(es: Edges, d: Option<EdgeId>, from: NodeId, to: NodeId)
  {
    d.Some? ==> from != to && d.value in es && es[d.value].bs == Some(to)
  }

  lemma EdgeAfter(es: Edges, from: NodeId, to: NodeId, d: Option<EdgeId>, e: EdgeId)
    requires LeadsTo(es, d, from, to) && e in es
    ensures var es1 := Detached(Redirected(es, from, to), d);
            && es1.Keys == es.Keys
            && es1[e] ==
               es[e].(bs := if Moves(es, e, from, to) then Some(to) else if d == Some(e) then None else es[e].bs)
  {}

  /** A node outside the list keeps its users, and what its edges carry. */
  lemma UnlistedNode(w: World, es: Edges, from: NodeId, to: NodeId, d: Option<EdgeId>, list: seq<NodeId>, n: NodeId)
    requires from in list && to in list && n !in list
    requires LeadsTo(es, d, from, to)
    requires Sorted(Detached(Redirected(es, from, to), d), list)
    ensures var es1 := Detached(Redirected(es, from, to), d);
            var es' := RefreshList(w, es1, list).1;
            && Cumulative(es', n) == Cumulative(es, n) && (Compatible(es', n) <==> Compatible(es, n))
            && (forall p :: Needed(es', n, p) <==> Needed(es, n, p))
            && es'.Keys == es.Keys && (forall e :: e in es && es[e].owner == Some(n) ==> es'[e] == es1[e])
  {
    hide RefreshList;
    hide Redirected;
    hide Detached;
    hide Movable;
    var es1 := Detached(Redirected(es, from, to), d);
    var es' := RefreshList(w, es1, list).1;
    RefreshOnlyGrants(w, es1, list);
    forall e | e in es
      ensures e in es1 && es1[e] == es[e].(bs := es1[e].bs)
      ensures es1[e].bs == Some(n) <==> es[e].bs == Some(n)
      ensures es[e].bs == Some(n) ==> e in es' && es'[e] == es[e]
    {
      EdgeAfter(es, from, to, d, e);
      if es1[e].bs == Some(n) && es1[e].owner.Some? { assert Links(es1, e, es1[e].owner.value, n); }
    }
    SameKeys(es, from, to, d);
    SameUsers(es, es', n);
  }

  lemma SameKeys(es: Edges, from: NodeId, to: NodeId, d: Option<EdgeId>)
    ensures Detached(Redirected(es, from, to), d).Keys == es.Keys
  {}

  /** A node outside the list stays in order exactly if its users that moved stay covered. */
  lemma UnlistedInOrder(w: World, es: Edges, from: NodeId, to: NodeId, d: Option<EdgeId>, list: seq<NodeId>, n: NodeId)
    requires from in list && to in list && n !in list && InOrder(w, es, n)
    requires LeadsTo(es, d, from, to)
    requires Sorted(Detached(Redirected(es, from, to), d), list)
    ensures InOrder(w, RefreshList(w, Detached(Redirected(es, from, to), d), list).1, n) <==>
            forall e :: Moves(es, e, from, to) && es[e].owner == Some(n) ==> StaysCovered(w, es, e, to)
  {
    hide RefreshList;
    hide Movable;
    hide Cumulative;
    hide Needed;
    hide Compatible;
    hide Sorted;
    hide Redirected;
    hide Detached;
    var es1 := Detached(Redirected(es, from, to), d);
    var es' := RefreshList(w, es1, list).1;
    UnlistedNode(w, es, from, to, d, list, n);
    forall e | e in es && es[e].owner == Some(n)
      ensures es'[e] ==
              es[e].(bs := if Moves(es, e, from, to) then Some(to) else if d == Some(e) then None else es[e].bs)
    {
      EdgeAfter(es, from, to, d, e);
    }
    forall e | e in es && e in es' && es'[e].owner == Some(n) ensures es[e].owner == Some(n) {
      OwnersKept(w, es, from, to, d, list, e);
    }
    if InOrder(w, es', n) {
      forall e | Moves(es, e, from, to) && es[e].owner == Some(n) ensures StaysCovered(w, es, e, to) {
        assert e in ChildEdges(es', n);
      }
    }
    if forall e :: Moves(es, e, from, to) && es[e].owner == Some(n) ==> StaysCovered(w, es, e, to) {
      forall e | e in ChildEdges(es', n) && Recomputes(w, n)
        ensures Looser(ChildGrant(w, n, es'[e].role, es'[e].bs.value, Cumulative(es', n)), es'[e].grant)
      {
        if !Moves(es, e, from, to) { assert e in ChildEdges(es, n); }
      }
    }
  }

  lemma OwnersKept(w: World, es: Edges, from: NodeId, to: NodeId, d: Option<EdgeId>, list: seq<NodeId>, e: EdgeId)
    requires LeadsTo(es, d, from, to) && e in es
    ensures var es' := RefreshList(w, Detached(Redirected(es, from, to), d), list).1;
            e in es' && es'[e].owner == es[e].owner
  {
    hide RefreshList;
    EdgeAfter(es, from, to, d, e);
    RefreshOnlyGrants(w, Detached(Redirected(es, from, to), d), list);
  }

  lemma StaysDetached(w: World, es: Edges, from: NodeId, to: NodeId, d: EdgeId, list: seq<NodeId>)
    requires LeadsTo(es, Some(d), from, to)
    ensures var es' := RefreshList(w, Detached(Redirected(es, from, to), Some(d)), list).1;
            d in es' && es'[d].bs == None
  {
    hide RefreshList;
    EdgeAfter(es, from, to, Some(d), d);
    RefreshOnlyGrants(w, Detached(Redirected(es, from, to), Some(d)), list);
  }

  /** Nodes that are not refreshed were in order, and no user hanging on a refreshed node moves. */
  ghost predicate MovesFromOutside(w: World, es: Edges, from: NodeId, to: NodeId, list: seq<NodeId>)
  {
    && from in list && to in list
    && (forall n: NodeId :: n !in list ==> InOrder(w, es, n))
    && (forall e :: Moves(es, e, from, to) && es[e].owner.Some? ==> es[e].owner.value !in list)
  }

  lemma ListedInOrder(w: World, es: Edges, list: seq<NodeId>, n: NodeId)
    requires Sorted(es, list) && RefreshList(w, es, list).0 == Fine && n in list
    ensures InOrder(w, RefreshList(w, es, list).1, n)
  {
    RefreshEstablishes(w, es, list, n);
  }

  /** Moving the users of `from` to `to` and refreshing both subtrees leaves the permissions in
      order exactly if every user that moves stays covered. */
  lemma RedirectIff(w: World, es: Edges, from: NodeId, to: NodeId, d: Option<EdgeId>, list: seq<NodeId>)
    requires MovesFromOutside(w, es, from, to, list)
    requires LeadsTo(es, d, from, to)
    requires var es1 := Detached(Redirected(es, from, to), d);
             Sorted(es1, list) && RefreshList(w, es1, list).0 == Fine
    ensures PermInv(w, RefreshList(w, Detached(Redirected(es, from, to), d), list).1) <==> MovedCovered(w, es, from, to)
  {
    hide RefreshList;
    hide Movable;
    hide Redirected;
    hide Detached;
    hide Cumulative;
    hide InOrder;
    var es1 := Detached(Redirected(es, from, to), d);
    var es' := RefreshList(w, es1, list).1;
    forall n: NodeId
      ensures n in list ==> InOrder(w, es', n)
      ensures n !in list ==> (InOrder(w, es', n) <==>
                forall e :: Moves(es, e, from, to) && es[e].owner == Some(n) ==> StaysCovered(w, es, e, to))
    {
      if n in list {
        ListedInOrder(w, es1, list, n);
      } else {
        UnlistedInOrder(w, es, from, to, d, list, n);
      }
    }
    if PermInv(w, es') {
      forall e | Moves(es, e, from, to) ensures StaysCovered(w, es, e, to) {
        if es[e].owner.Some? { assert InOrder(w, es', es[e].owner.value); }
      }
    }
  }

  /** `bdrv_replace_node_common` leaves the permissions in order exactly if every user that it
      moves stays covered. */
  lemma ReplacePerms(w: World, base: Edges, from: NodeId, to: NodeId, d: Option<EdgeId>, list: seq<NodeId>)
    requires PermsOk(w, base) && Acyclic(base)
    requires LeadsTo(base, d, from, to)
    requires var es := Detached(Redirected(base, from, to), d);
             Sorted(es, list) && ExactlyBelow(es, list, {from, to}) && RefreshList(w, es, list).0 == Fine
    ensures PermsOk(w, RefreshList(w, Detached(Redirected(base, from, to), d), list).1) <==>
            MovedCovered(w, base, from, to)
  {
    hide RefreshList;
    hide InOrder;
    hide Monotone;
    hide Redirected;
    hide Detached;
    hide StaysCovered;
    hide Sorted;
    var es := Detached(Redirected(base, from, to), d);
    RootInList(es, list, {from, to}, from);
    RootInList(es, list, {from, to}, to);
    forall e | Moves(base, e, from, to) && base[e].owner.Some? ensures base[e].owner.value !in list {
      MovedFromAbove(base, from, to, d, e);
      BelowIsReach(es, from);
      BelowIsReach(es, to);
    }
    RedirectIff(w, base, from, to, d, list);
  }

  /** Node `b` may take the place of node `a` below an edge that is not recomputed: an edge
      to a node with `force_share` shares everything. */
  predicate ShareCompatible(w: World, a: NodeId, b: NodeId)
  {
    w.info(a).forceShare ==> w.info(b).forceShare
  }

  /** A node that shares as much as the old one can always take its place. */
  lemma ShareCompatibleCovers(w: World, es: Edges, from: NodeId, to: NodeId)
    requires PermsOk(w, es) && ShareCompatible(w, from, to)
    ensures MovedCovered(w, es, from, to)
  {
    forall e | Moves(es, e, from, to) ensures StaysCovered(w, es, e, to) {
      if es[e].owner.Some? && Recomputes(w, es[e].owner.value) {
        assert InOrder(w, es, es[e].owner.value) && e in ChildEdges(es, es[e].owner.value);
        forall p | p in es[e].grant.shared ensures p in ALL { AllPerms(p); }
      }
    }
  }

  /** Exchanging a node with `force_share` for one without it leaves the edge of a parent
      node sharing everything: that edge is not recomputed. */
  lemma RedirectCanBreakCover() returns (w: World, base: Edges, es: Edges)
    ensures PermsOk(w, base) && es == Redirected(base, 1, 2) && !ShareCompatible(w, 1, 2)
    ensures Sorted(es, [1, 2]) && RefreshList(w, es, [1, 2]) == (Fine, es) && !PermInv(w, es)
  {
    w := World(n => NodeInfo(true, n == 0, true, true, n == 1), (n, role, g) => Grant({}, {}), (n, g) => true);
    var e := Edge(Some(0), Some(1), Data, Grant({}, ALL), false, false);
    base := map[0 := e];
    es := map[0 := e.(bs := Some(2))];
    assert base[0] == e && es[0] == e.(bs := Some(2));
    forall n: NodeId ensures InOrder(w, base, n) {
      if n == 0 { assert ChildEdges(base, 0) == {0}; } else { assert ChildEdges(base, n) == {}; }
    }
    forall x: NodeId, y: NodeId | Arrow(es, x, y) ensures x == 0 && y == 2 {}
    forall x: NodeId, y: NodeId | Arrow(base, x, y) ensures x == 0 && y == 1 {}
    assert !Reach(base, 2, 0) by {
      if Reach(base, 2, 0) { var x := ReachViaChild(base, 2, 0); }
    }
    assert Moves(base, 0, 1, 2);
    assert es == Redirected(base, 1, 2);
    assert Compatible(es, 1) && Compatible(es, 2);
    assert ChildEdges(es, 1) == {} && ChildEdges(es, 2) == {};
    assert RefreshNode(w, es, 1) == (Fine, es) && RefreshNode(w, es, 2) == (Fine, es);
    assert [1, 2][1..] == [2] && [2][1..] == [];
    assert RefreshList(w, es, [2]) == (Fine, es);
    assert 0 in ChildEdges(es, 0) && !Covered(w, es, 0);
    assert !InOrder(w, es, 0);
  }

  /** The edges after the two tentative steps of `bdrv_append`. */
  ghost function Appended(w: World, es: Edges, e: EdgeId, top: NodeId, overlay: NodeId, role: Role): Edges
  {
    Redirected(es[e := NewEdge(w, es, overlay, top, role)], top, overlay)
  }

  /** `bdrv_append` has no reason to fail before it updates permissions. */
  ghost predicate MayAppend(w: World, es: Edges, e: EdgeId, top: NodeId, overlay: NodeId, role: Role)
  {
    !Reach(es, top, overlay) && AllMayMove(es[e := NewEdge(w, es, overlay, top, role)], top, overlay, true)
  }

  /** Hanging `overlay` above `top` does not change which users of `top` move to it. */
  lemma AppendMoves(w: World, es: Edges, e: EdgeId, top: NodeId, overlay: NodeId, role: Role, c: EdgeId)
    requires e !in es && Acyclic(es) && !Reach(es, top, overlay)
    ensures Moves(es[e := NewEdge(w, es, overlay, top, role)], c, top, overlay) <==> Moves(es, c, top, overlay)
  {
    var mid := es[e := NewEdge(w, es, overlay, top, role)];
    ReachSelf(mid, overlay);
    forall x, y ensures Arrow(mid, x, y) <==> Arrow(es, x, y) || (x == overlay && y == top) {
      if Arrow(es, x, y) { var i :| i in es && Links(es, i, x, y); assert Links(mid, i, x, y); }
      if Arrow(mid, x, y) { var i :| i in mid && Links(mid, i, x, y); assert i == e || Links(es, i, x, y); }
      assert Links(mid, e, overlay, top);
    }
    if c != e && c in Parents(es, top) && es[c].owner.Some? {
      var n := es[c].owner.value;
      if Reach(es, overlay, n) { ReachMonotone(es, mid, overlay, n); }
      if Reach(mid, overlay, n) && !Reach(es, overlay, n) {
        PathOldOrNew(es, mid, overlay, top, overlay, n);
        PathOldOrNew(es, mid, overlay, top, top, n);
        assert Links(es, c, n, top);
        NewReachIsOld(es, mid, overlay, top);
        assert false;
      }
    }
  }

  /** The nodes above see nothing of the new edge from `overlay` to `top`. */
  lemma AppendOthers(w: World, es: Edges, e: EdgeId, top: NodeId, overlay: NodeId, role: Role, n: NodeId)
    requires e !in es && n != top
    ensures var mid := es[e := NewEdge(w, es, overlay, top, role)];
            Cumulative(mid, n) == Cumulative(es, n) && (n != overlay ==> (InOrder(w, mid, n) <==> InOrder(w, es, n)))
  {
    var mid := es[e := NewEdge(w, es, overlay, top, role)];
    SameUsers(es, mid, n);
    if n != overlay { assert ChildEdges(mid, n) == ChildEdges(es, n); }
  }

  /** The users that move are covered before the new edge is there exactly if they are after. */
  lemma AppendCovered(w: World, es: Edges, e: EdgeId, top: NodeId, overlay: NodeId, role: Role)
    requires e !in es && Acyclic(es) && !Reach(es, top, overlay)
    ensures MovedCovered(w, es[e := NewEdge(w, es, overlay, top, role)], top, overlay) <==>
            MovedCovered(w, es, top, overlay)
  {
    hide Movable;
    hide Cumulative;
    hide Reach;
    var mid := es[e := NewEdge(w, es, overlay, top, role)];
    forall c ensures Moves(mid, c, top, overlay) <==> Moves(es, c, top, overlay) {
      AppendMoves(w, es, e, top, overlay, role, c);
    }
    forall c | Moves(es, c, top, overlay)
      ensures StaysCovered(w, mid, c, overlay) <==> StaysCovered(w, es, c, overlay)
    {
      if es[c].owner.Some? {
        assert Links(es, c, es[c].owner.value, top);
        ReachSelf(es, top);
        AppendOthers(w, es, e, top, overlay, role, es[c].owner.value);
      }
    }
  }

  /** `bdrv_append` leaves the permissions in order exactly if every user that it moves stays
      covered. */
  lemma AppendPerms(w: World, base: Edges, e: EdgeId, top: NodeId, overlay: NodeId, role: Role, list: seq<NodeId>)
    requires PermsOk(w, base) && Acyclic(base) && !Reach(base, top, overlay) && e !in base
    requires var es := Appended(w, base, e, top, overlay, role);
             Sorted(es, list) && ExactlyBelow(es, list, {overlay}) && RefreshList(w, es, list).0 == Fine
    ensures PermsOk(w, RefreshList(w, Appended(w, base, e, top, overlay, role), list).1) <==>
            MovedCovered(w, base, top, overlay)
  {
    hide RefreshList;
    hide Monotone;
    var mid := base[e := NewEdge(w, base, overlay, top, role)];
    var es := Appended(w, base, e, top, overlay, role);
    assert Detached(es, None) == es;
    RootInList(es, list, {overlay}, overlay);
    ReachSelf(mid, overlay);
    assert Links(es, e, overlay, top);
    forall c | Moves(mid, c, top, overlay) && mid[c].owner.Some? ensures mid[c].owner.value !in list {
      MovedFromAbove(mid, top, overlay, None, c);
      BelowIsReach(es, overlay);
    }
    forall n: NodeId | n !in list ensures InOrder(w, mid, n) {
      AppendOthers(w, base, e, top, overlay, role, n);
      assert InOrder(w, base, n);
    }
    RedirectIff(w, mid, top, overlay, None, list);
    AppendCovered(w, base, e, top, overlay, role);
  }

  /** After `bdrv_append` the new node is the only way down to the old top, apart from users
      that stay at their node or hang below the new node. */
  lemma AppendOnTop(w: World, es: Edges, e: EdgeId, top: NodeId, overlay: NodeId, role: Role, c: EdgeId)
    requires e !in es && top != overlay
    requires c in Parents(Appended(w, es, e, top, overlay, role), top)
    ensures c == e ||
            (c in es && (es[c].stayAtNode || HangsBelow(es[e := NewEdge(w, es, overlay, top, role)], c, overlay)))
  {}

  // ---------------------------------------------------------------------------
  // Inherited options
  // ---------------------------------------------------------------------------

  /** `root` has an edge to `n` other than `e`. */
  predicate OtherLink(es: Edges, root: NodeId, e: EdgeId, n: NodeId)
  {
    exists c :: c in es && c != e && Links(es, c, root, n)
  }

  /** The nodes in `nodes` no longer inherit from `root`, unless `root` has another edge to them. */
  ghost function Cleared(es: Edges, inherits: map<NodeId, Option<NodeId>>, root: NodeId, e: EdgeId, nodes: set<NodeId>)
    : map<NodeId, Option<NodeId>>
  {
    map n | n in inherits ::
      if n in nodes && inherits[n] == Some(root) && !OtherLink(es, root, e, n) then None else inherits[n]
  }

  /** Nodes below a set of edges. */
  ghost function BelowEdges(es: Edges, cs: set<EdgeId>): set<NodeId>
  {
    set c, x | c in cs && c in es && es[c].bs.Some? && x in Below(es, es[c].bs.value) :: x
  }

  lemma BelowIsChildren(es: Edges, n: NodeId)
    ensures Below(es, n) == {n} + BelowEdges(es, ChildEdges(es, n))
  {
    BelowIsReach(es, n);
    forall x ensures x in Below(es, n) <==> x in {n} + BelowEdges(es, ChildEdges(es, n)) {
      RecurseStep(es, n, x);
      forall c | c in ChildEdges(es, n) ensures x in Below(es, es[c].bs.value) <==> Reach(es, es[c].bs.value, x) {
        BelowIsReach(es, es[c].bs.value);
      }
    }
  }

  /** In an acyclic graph an edge further down is not an edge of `root`. */
  lemma DeeperEdge(es: Edges, root: NodeId, e: EdgeId, n: NodeId, c: EdgeId)
    requires Acyclic(es) && e in es && es[e].owner == Some(root) && es[e].bs.Some?
    requires Reach(es, es[e].bs.value, n) && c in ChildEdges(es, n)
    ensures es[c].owner != Some(root) && es[c].bs.value != es[e].bs.value
    ensures Reach(es, es[e].bs.value, es[c].bs.value)
  {
    var top := es[e].bs.value;
    assert Links(es, e, root, top) && Links(es, c, n, es[c].bs.value);
    assert Arrow(es, root, top) && Arrow(es, n, es[c].bs.value);
    ReachArrow(es, n, es[c].bs.value);
    ReachTransitive(es, top, n, es[c].bs.value);
  }

  /** The edges through which `bdrv_unset_inherits_from` for edge `e` of `root` arrives. */
  ghost predicate OnTheWayDown(es: Edges, root: NodeId, e: EdgeId, c: EdgeId)
  {
    && Acyclic(es) && e in es && es[e].owner == Some(root) && es[e].bs.Some?
    && c in es && es[c].bs.Some? && Reach(es, es[e].bs.value, es[c].bs.value)
    && (c == e || (es[c].owner != Some(root) && es[c].bs != es[e].bs))
  }

  /** What is cleared when the children in `todo` of `n` have not been visited yet. */
  ghost function ClearedBut(es: Edges, inherits: map<NodeId, Option<NodeId>>, root: NodeId, e: EdgeId, n: NodeId,
                            todo: set<EdgeId>)
    : map<NodeId, Option<NodeId>>
  {
    Cleared(es, inherits, root, e, {n} + BelowEdges(es, ChildEdges(es, n) - todo))
  }

  lemma ClearedFirst(es: Edges, inherits: map<NodeId, Option<NodeId>>, root: NodeId, e: EdgeId, c: EdgeId)
    requires OnTheWayDown(es, root, e, c) && es[c].bs.value in inherits
    ensures var n := es[c].bs.value;
            ClearedBut(es, inherits, root, e, n, ChildEdges(es, n)) ==
              if inherits[n] == Some(root) && !OtherLink(es, root, c, n) then inherits[n := None] else inherits
  {
    var n := es[c].bs.value;
    assert OtherLink(es, root, c, n) <==> OtherLink(es, root, e, n);
    assert BelowEdges(es, ChildEdges(es, n) - ChildEdges(es, n)) == {};
  }

  lemma ClearedNext(es: Edges, inherits: map<NodeId, Option<NodeId>>, root: NodeId, e: EdgeId, n: NodeId,
                    todo: set<EdgeId>, d: EdgeId)
    requires d in todo && todo <= ChildEdges(es, n)
    ensures Cleared(es, ClearedBut(es, inherits, root, e, n, todo), root, e, Below(es, es[d].bs.value)) ==
            ClearedBut(es, inherits, root, e, n, todo - {d})
  {
    var done := ChildEdges(es, n) - todo;
    assert ChildEdges(es, n) - (todo - {d}) == done + {d};
    assert BelowEdges(es, done + {d}) == BelowEdges(es, done) + Below(es, es[d].bs.value);
  }

  lemma ClearedAll(es: Edges, inherits: map<NodeId, Option<NodeId>>, root: NodeId, e: EdgeId, n: NodeId)
    ensures ClearedBut(es, inherits, root, e, n, {}) == Cleared(es, inherits, root, e, Below(es, n))
  {
    BelowIsChildren(es, n);
    assert ChildEdges(es, n) - {} == ChildEdges(es, n);
  }

  lemma WayDownChild(es: Edges, root: NodeId, e: EdgeId, c: EdgeId, d: EdgeId)
    requires OnTheWayDown(es, root, e, c) && d in ChildEdges(es, es[c].bs.value)
    ensures OnTheWayDown(es, root, e, d) && Below(es, es[d].bs.value) < Below(es, es[c].bs.value)
  {
    DeeperEdge(es, root, e, es[c].bs.value, d);
    ChildBelow(es, es[c].bs.value, d);
  }

  /** The inherits_from pointers after the current child `d` of `parent` has been given up. */
  ghost function ClearedBelow(es: Edges, inherits: map<NodeId, Option<NodeId>>, parent: NodeId, d: Option<EdgeId>)
    : map<NodeId, Option<NodeId>>
  {
    if d.Some? && d.value in es && es[d.value].bs.Some?
    then Cleared(es, inherits, parent, d.value, Below(es, es[d.value].bs.value))
    else inherits
  }

  /** `bdrv_set_file_or_backing_noperm` has no reason to fail. */
  ghost predicate MaySetChild(w: World, es: Edges, parent: NodeId, child: Option<NodeId>, d: Option<EdgeId>,
                              role: Option<Role>)
  {
    && w.info(parent).hasDriver && role.Some? && !(d.Some? && d.value in es && es[d.value].frozen)
    && (child.Some? ==> !Reach(Detached(es, d), child.value, parent))
  }

  lemma ClearedFewer(es: Edges, inherits: map<NodeId, Option<NodeId>>, parent: NodeId, d: Option<EdgeId>)
    ensures var inherits' := ClearedBelow(es, inherits, parent, d);
            forall n :: n in inherits' ==> inherits'[n] == None || inherits'[n] == InheritsNext(inherits, n)
  {}

  /** Node `m` is below one of the edges in `gone`, and no edge in `todo` leads from `n` to it. */
  ghost predicate LetGo(es: Edges, n: NodeId, gone: set<EdgeId>, todo: set<EdgeId>, m: NodeId)
  {
    && (exists e :: e in gone && e in es && es[e].bs.Some? && Reach(es, es[e].bs.value, m))
    && (forall c :: c in todo ==> !Links(es, c, n, m))
  }

  /** The inherits_from pointers while the children of `n` are given up; those in `todo` are left. */
  ghost function Disowning(es: Edges, inherits: map<NodeId, Option<NodeId>>, n: NodeId, todo: set<EdgeId>)
    : map<NodeId, Option<NodeId>>
  {
    map m | m in inherits ::
      if inherits[m] == Some(n) && LetGo(es, n, ChildEdges(es, n) - todo, todo, m) then None else inherits[m]
  }

  /** The inherits_from pointers when all children of `n` have been given up: the nodes below `n` do
      not inherit from it any more. */
  ghost function Disowned(es: Edges, inherits: map<NodeId, Option<NodeId>>, n: NodeId): map<NodeId, Option<NodeId>>
  {
    map m | m in inherits :: if inherits[m] == Some(n) && m != n && Reach(es, n, m) then None else inherits[m]
  }

  lemma DisowningNone(es: Edges, inherits: map<NodeId, Option<NodeId>>, n: NodeId)
    ensures Disowning(es, inherits, n, ChildEdges(es, n)) == inherits
  {}

  lemma DisowningAll(es: Edges, inherits: map<NodeId, Option<NodeId>>, n: NodeId)
    requires Acyclic(es)
    ensures Disowning(es, inherits, n, {}) == Disowned(es, inherits, n)
  {
    forall m | m in inherits
      ensures LetGo(es, n, ChildEdges(es, n) - {}, {}, m) <==> m != n && Reach(es, n, m)
    {
      if LetGo(es, n, ChildEdges(es, n) - {}, {}, m) {
        var e :| e in ChildEdges(es, n) && Reach(es, es[e].bs.value, m);
        assert Links(es, e, n, es[e].bs.value);
        ReachArrow(es, n, es[e].bs.value);
        ReachTransitive(es, n, es[e].bs.value, m);
      }
      if m != n && Reach(es, n, m) {
        var x := ReachViaChild(es, n, m);
        var e :| e in es && Links(es, e, n, x);
        assert e in ChildEdges(es, n) - {};
      }
    }
  }

  lemma DisownedUnfrozen(es: Edges, es': Edges, inherits: map<NodeId, Option<NodeId>>, n: NodeId)
    requires es'.Keys == es.Keys && forall e :: e in es ==> es'[e] == es[e].(frozen := es'[e].frozen)
    ensures Disowned(es', inherits, n) == Disowned(es, inherits, n)
  {
    forall x, y ensures Arrow(es', x, y) <==> Arrow(es, x, y) {
      if Arrow(es', x, y) { var c :| c in es' && Links(es', c, x, y); assert Links(es, c, x, y); }
      if Arrow(es, x, y) { var c :| c in es && Links(es, c, x, y); assert Links(es', c, x, y); }
    }
    forall m ensures Reach(es', n, m) <==> Reach(es, n, m) {
      if Reach(es', n, m) { ReachMonotone(es', es, n, m); }
      if Reach(es, n, m) { ReachMonotone(es, es', n, m); }
    }
  }

  /** A node inherits from the freed node `n` exactly if it did so before and was not below it: such
      a pointer is stale. */
  lemma StaleIff(es: Edges, inherits: map<NodeId, Option<NodeId>>, n: NodeId, m: NodeId)
    requires InheritsOk(inherits)
    ensures m in Disowned(es, inherits, n) - {n} && (Disowned(es, inherits, n) - {n})[m] == Some(n) <==>
            m in inherits && inherits[m] == Some(n) && !Reach(es, n, m)
  {
    if n in inherits && inherits[n] == Some(n) {
      PointerArrow(inherits, n, n);
      ReachSelf(Pointers(inherits), n);
    }
  }

  /** Exchanging node 1 for node 2 leaves node 1 inheriting from node 0, but not below it any more. */
  lemma ExchangeStrands() returns (es: Edges, inherits: map<NodeId, Option<NodeId>>)
    ensures InheritsOk(inherits) && InheritsNext(inherits, 1) == Some(0) && Acyclic(es) && Reach(es, 0, 1)
    ensures AllMayMove(es, 1, 2, false) && !Reach(Redirected(es, 1, 2), 0, 1)
  {
    var e := Edge(Some(0), Some(1), Data, Grant({}, ALL), false, false);
    es, inherits := map[0 := e], map[0 := None, 1 := Some(0), 2 := None];
    assert es[0] == e;
    forall x: NodeId, y: NodeId ensures Arrow(es, x, y) <==> x == 0 && y == 1 {
      if x == 0 && y == 1 { assert Links(es, 0, 0, 1); }
    }
    forall x: NodeId, y: NodeId ensures Arrow(Pointers(inherits), x, y) <==> x == 1 && y == 0 {
      PointerArrow(inherits, x, y);
    }
    OneArrow(es, 0, 1);
    OneArrow(Pointers(inherits), 1, 0);
    ReachArrow(es, 0, 1);
    assert !Reach(es, 2, 0) by {
      if Reach(es, 2, 0) { var x := ReachViaChild(es, 2, 0); }
    }
    assert Movable(es, 0, 2) && Moves(es, 0, 1, 2);
    var es' := Redirected(es, 1, 2);
    assert es'[0] == e.(bs := Some(2));
    if Reach(es', 0, 1) {
      ReachIsTarget(es', 0, 1);
      assert false;
    }
  }

  lemma OneArrow(es: Edges, a: NodeId, b: NodeId)
    requires a != b && forall x, y :: Arrow(es, x, y) ==> x == a && y == b
    ensures Acyclic(es)
  {
    if Reach(es, b, a) { var x := ReachViaChild(es, b, a); }
  }

  /** `es` has the links of `es0` but for the edges in `gone`. */
  ghost predicate FewerLinks(es0: Edges, es: Edges, gone: set<EdgeId>)
  {
    es.Keys == es0.Keys - gone && forall e :: e in es ==> es[e].owner == es0[e].owner && es[e].bs == es0[e].bs
  }

  /** What is below a child of `n` does not depend on the other children of `n`. */
  lemma BelowChild(es0: Edges, es: Edges, n: NodeId, gone: set<EdgeId>, e: EdgeId, m: NodeId)
    requires Acyclic(es0) && FewerLinks(es0, es, gone) && gone <= ChildEdges(es0, n) && e in ChildEdges(es0, n)
    ensures Reach(es, es0[e].bs.value, m) <==> Reach(es0, es0[e].bs.value, m)
  {
    var t, es1 := es0[e].bs.value, es0 - gone;
    assert Links(es0, e, n, t);
    assert Arrow(es0, n, t) && !Reach(es0, t, n);
    SameSubtree(es0, es1, t, m);
    forall x, y ensures Arrow(es, x, y) <==> Arrow(es1, x, y) {
      if Arrow(es, x, y) { var c :| c in es && Links(es, c, x, y); assert Links(es1, c, x, y); }
      if Arrow(es1, x, y) { var c :| c in es1 && Links(es1, c, x, y); assert Links(es, c, x, y); }
    }
    if Reach(es, t, m) { ReachMonotone(es, es1, t, m); }
    if Reach(es1, t, m) { ReachMonotone(es1, es, t, m); }
  }

  /** Another edge from `n` to `m` is one of those that have not been given up yet. */
  lemma OtherIsLeft(es0: Edges, es: Edges, n: NodeId, todo: set<EdgeId>, e: EdgeId, m: NodeId)
    requires e in todo && todo <= ChildEdges(es0, n) && FewerLinks(es0, es, ChildEdges(es0, n) - todo)
    ensures OtherLink(es, n, e, m) <==> exists c :: c in todo - {e} && Links(es0, c, n, m)
  {
    if c :| c in es && c != e && Links(es, c, n, m) {
      assert c in ChildEdges(es0, n) && c in todo - {e} && Links(es0, c, n, m);
    }
    if c :| c in todo - {e} && Links(es0, c, n, m) {
      assert c in es && Links(es, c, n, m);
    }
  }

  lemma LetGoNext(es0: Edges, n: NodeId, todo: set<EdgeId>, e: EdgeId, m: NodeId)
    requires e in todo && todo <= ChildEdges(es0, n)
    ensures var all := ChildEdges(es0, n);
            var other := exists c :: c in todo - {e} && Links(es0, c, n, m);
            LetGo(es0, n, all - (todo - {e}), todo - {e}, m) <==>
            LetGo(es0, n, all - todo, todo, m) || (Reach(es0, es0[e].bs.value, m) && !other)
  {
    var all := ChildEdges(es0, n);
    assert all - (todo - {e}) == (all - todo) + {e};
    ReachSelf(es0, m);
    if Links(es0, e, n, m) { assert es0[e].bs.value == m; }
    if LetGo(es0, n, all - todo, todo, m) {
      var d :| d in all - todo && Reach(es0, es0[d].bs.value, m);
      assert d in all - (todo - {e});
    }
  }

  lemma DisowningNext(es0: Edges, es: Edges, inherits: map<NodeId, Option<NodeId>>, n: NodeId, todo: set<EdgeId>,
                      e: EdgeId)
    requires Acyclic(es0) && e in todo && todo <= ChildEdges(es0, n) && FewerLinks(es0, es, ChildEdges(es0, n) - todo)
    ensures ClearedBelow(es, Disowning(es0, inherits, n, todo), n, Some(e)) == Disowning(es0, inherits, n, todo - {e})
  {
    hide LetGo;
    hide OtherLink;
    hide Reach;
    hide Below;
    var t := es0[e].bs.value;
    assert e in es && es[e].bs == Some(t);
    BelowIsReach(es, t);
    forall m | m in inherits
      ensures ClearedBelow(es, Disowning(es0, inherits, n, todo), n, Some(e))[m] ==
              Disowning(es0, inherits, n, todo - {e})[m]
    {
      BelowChild(es0, es, n, ChildEdges(es0, n) - todo, e, m);
      OtherIsLeft(es0, es, n, todo, e, m);
      LetGoNext(es0, n, todo, e, m);
    }
  }

  /** The inherits_from pointers after `bdrv_set_file_or_backing_noperm`: the new child inherits
      from `parent` if it did so before, directly or not. */
  ghost function NewInherits(es: Edges, inherits: map<NodeId, Option<NodeId>>, parent: NodeId, child: Option<NodeId>,
                             d: Option<EdgeId>): map<NodeId, Option<NodeId>>
  {
    var kept := ClearedBelow(es, inherits, parent, d);
    if child.Some? && InheritsFrom(inherits, child.value, parent) then kept[child.value := Some(parent)] else kept
  }

  /** The edges after `bdrv_set_file_or_backing_noperm`. */
  ghost function NewChild(w: World, es: Edges, e: EdgeId, parent: NodeId, child: Option<NodeId>, role: Role,
                          d: Option<EdgeId>)
    : Edges
  {
    var es' := Detached(es, d);
    if child.Some? then es'[e := NewEdge(w, es', parent, child.value, role)] else es'
  }

  /** `bdrv_set_backing_hd_drained` keeps the permissions in order. */
  lemma NewChildPerms(w: World, base: Edges, e: EdgeId, parent: NodeId, child: Option<NodeId>, role: Role,
                      d: Option<EdgeId>, list: seq<NodeId>)
    requires PermsOk(w, base) && e !in base
    requires var es := NewChild(w, base, e, parent, child, role, d);
             Sorted(es, list) && ExactlyBelow(es, list, {parent}) && RefreshList(w, es, list).0 == Fine
    ensures PermsOk(w, RefreshList(w, NewChild(w, base, e, parent, child, role, d), list).1)
  {
    hide RefreshList;
    hide PermInv;
    hide Monotone;
    hide Sorted;
    var es := NewChild(w, base, e, parent, child, role, d);
    if child.Some? {
      RootInList(es, list, {parent}, parent);
      AttachRestores(w, base, es, e, list);
    } else {
      RefreshRestoresInv(w, base, es, list);
    }
  }

  // ---------------------------------------------------------------------------
  // Taking a user away
  // ---------------------------------------------------------------------------

  /** `bdrv_root_unref_child` keeps the permissions in order whether or not the refresh works
      out; it fails exactly if that leaves an unaligned writer or a driver that refuses. */
  lemma UnlinkPerms(w: World, base: Edges, e: EdgeId, list: seq<NodeId>)
    requires PermsOk(w, base) && Sorted(base - {e}, list)
    ensures PermsOk(w, base - {e}) && RefreshList(w, base - {e}, list).0 in {Fine, Unaligned, Refused}
    ensures RefreshList(w, base - {e}, list).0 != Fine <==> Misfits(w, base - {e}, list)
    ensures RefreshList(w, base - {e}, list).0 == Fine ==> PermsOk(w, RefreshList(w, base - {e}, list).1)
  {
    var es := base - {e};
    FreeingKeepsPerms(w, base, {e});
    LooseningNeverConflicts(w, base, es, list);
    LooseningFailsIff(w, base, es, list);
    if RefreshList(w, es, list).0 == Fine {
      RefreshRestoresInv(w, es, es, list);
    }
  }

  /** Permissions do not depend on whether an edge is frozen. */
  lemma SameGrantsPerms(w: World, es: Edges, es': Edges)
    requires PermsOk(w, es) && es'.Keys == es.Keys
    requires forall e :: e in es ==> es'[e] == es[e].(frozen := es'[e].frozen)
    ensures PermsOk(w, es')
  {
    forall n: NodeId ensures InOrder(w, es', n) {
      assert InOrder(w, es, n);
      assert Parents(es', n) == Parents(es, n) && ChildEdges(es', n) == ChildEdges(es, n);
      LoosenedUsers(es', es, n);
      forall e | e in ChildEdges(es', n) && Recomputes(w, n)
        ensures Looser(ChildGrant(w, n, es'[e].role, es'[e].bs.value, Cumulative(es', n)), es'[e].grant)
      {
        GrantStillCovers(w, n, es[e].role, es[e].bs.value, Cumulative(es, n), Cumulative(es', n), es[e].grant);
      }
    }
  }
}
