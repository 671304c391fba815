/** The block layer: graph edits in transactions, permission updates and reference counts
    (`qemu/block.c`).  Nodes are drained and edits run in the main thread. */
module BlockLayer {

  import opened Wrappers
  import opened Permissions
  import opened Graph
  import opened GraphSearch
  import opened RefreshPerms
  import opened Transactions
  import opened BlockState
  import opened GraphEdits
  import opened Inheritance

  lemma DisowningStep(es0: Edges, es: Edges, inherits: Inherits, n: NodeId, todo: set<EdgeId>, e: EdgeId)
    requires Acyclic(es0) && e in todo && todo <= ChildEdges(es0, n) && Without(es0, es, ChildEdges(es0, n) - todo)
    ensures ClearedBelow(es, Disowning(es0, inherits, n, todo), n, Some(e)) == Disowning(es0, inherits, n, todo - {e})
  {
    WithoutLinks(es0, es, ChildEdges(es0, n) - todo);
    DisowningNext(es0, es, inherits, n, todo, e);
  }

  class BlockLayer {
    const world: World

    var edges: Edges                      // every BdrvChild that has not been freed
    var nextEdge: EdgeId                  // a name for the next BdrvChild
    var inherits: Inherits                // bs->inherits_from
    var refcnt: RefCounts                 // bs->refcnt of every node that has not been freed
    var scheduled: multiset<NodeId>       // bdrv_schedule_unref bottom halves still to run
    var tran: seq<Action>                 // the open transaction, oldest action first

    ghost var outside: multiset<NodeId>
    ghost var dying: set<NodeId>
    ghost var start: View
    ghost var startScheduled: multiset<NodeId>

    ghost function Now(): Snap
      reads this
    {
      Snap(edges, nextEdge, inherits, refcnt, scheduled, tran, outside, dying, start, startScheduled)
    }

    ghost predicate Valid()
      reads this
    {
      Inv(Now())
    }

    /** No nodes yet. */
    constructor (world: World)
      ensures Settled(Now()) && this.world == world && refcnt == map[] && edges == map[] && dying == {}
      ensures Monotone(world) ==> PermsOk(world, edges)
    {
      this.world := world;
      edges, nextEdge, inherits, refcnt, scheduled, tran := map[], 0, map[], map[], multiset{}, [];
      outside, dying, start, startScheduled := multiset{}, {}, View(map[], map[], map[]), multiset{};
      new;
      NoPath();
      NothingInherited();
      if Monotone(world) { EmptyPerms(world); }
    }

    /** `bdrv_new`, and the part of `bdrv_open_inherit` that lets the new node inherit its options from
        `from`.  Nothing points to the new node yet. */
    method NewNode(n: NodeId, from: Option<NodeId>)
      requires Settled(Now()) && n !in refcnt && n !in dying
      requires from.Some? ==> from.value in refcnt && forall m :: m in inherits ==> inherits[m] != Some(n)
      modifies this
      ensures Settled(Now()) && Now() == WithNode(old(Now()), n, from)
    {
      hide Settled;
      WithNodeInv(Now(), n, from);
      refcnt := refcnt[n := 1];
      inherits := inherits[n := from];
      outside := outside + multiset{n};
      start := ViewOf(Now());
      startScheduled := scheduled;
    }

    /** `bdrv_ref`. */
    method Ref(n: NodeId)
      requires Settled(Now()) && n in refcnt && n !in dying
      modifies this
      ensures Settled(Now()) && Now() == Referenced(old(Now()), n)
    {
      hide Settled;
      ReferencedInv(Now(), n);
      refcnt := refcnt[n := refcnt[n] + 1];
      outside := outside + multiset{n};
      start := ViewOf(Now());
      startScheduled := scheduled;
    }

    // -------------------------------------------------------------------------
    // Primitive edits
    // -------------------------------------------------------------------------

    /** `bdrv_child_set_perm`. */
    method ChildSetPerm(e: EdgeId, grant: Grant)
      requires Valid() && e in edges
      modifies this
      ensures Valid() && Now() == WithGrant(old(Now()), e, grant)
    {
      hide Inv;
      WithGrantInv(Now(), e, grant);
      tran := tran + [SetPerm(e, edges[e].grant)];
      edges := edges[e := edges[e].(grant := grant)];
    }

    /** `bdrv_replace_child_tran`. */
    method ReplaceChildTran(e: EdgeId, bs: NodeId)
      requires Valid() && e in edges && !edges[e].frozen && edges[e].bs.Some? && edges[e].bs != Some(bs)
      requires bs in refcnt && bs !in dying && NoCycle(edges, edges[e].owner, Some(bs))
      modifies this
      ensures Valid() && Now() == WithTarget(old(Now()), e, Some(bs))
    {
      hide Inv;
      WithTargetInv(Now(), e, Some(bs));
      tran := tran + [Replaced(e, edges[e].bs)];
      refcnt := refcnt[bs := refcnt[bs] + 1];
      edges := edges[e := edges[e].(bs := Some(bs))];
    }

    /** `bdrv_attach_child_common`. */
    method AttachChildCommon(edge: Edge) returns (e: EdgeId)
      requires Valid() && Attachable(Now(), edge) && NoCycle(edges, edge.owner, edge.bs)
      modifies this
      ensures Valid() && Now() == WithEdge(old(Now()), edge) && e == old(nextEdge)
    {
      hide Inv;
      WithEdgeInv(Now(), edge);
      e := nextEdge;
      nextEdge := nextEdge + 1;
      refcnt := refcnt[edge.bs.value := refcnt[edge.bs.value] + 1];
      edges := edges[e := edge];
      tran := tran + [Attached(e)];
    }

    /** `bdrv_attach_child_noperm`: refuses exactly if the new edge would close a cycle. */
    method AttachChildNoperm(parent: NodeId, child: NodeId, role: Role) returns (e: Option<EdgeId>)
      requires Valid() && world.info(parent).hasDriver
      requires parent in refcnt && child in refcnt && child !in dying
      modifies this
      ensures Valid()
      ensures e.None? <==> Reach(old(edges), child, parent)
      ensures e.None? ==> Now() == old(Now())
      ensures e.Some? ==> e.value == old(nextEdge)
      ensures e.Some? ==> Now() == WithEdge(old(Now()), NewEdge(world, old(edges), parent, child, role))
    {
      if RecurseHasChild(edges, child, parent) {
        return None;
      }
      var users := GetCumulativePerm(edges, parent);
      var id := AttachChildCommon(Edge(Some(parent), Some(child), role,
                                       ChildGrant(world, parent, role, child, users), false, false));
      return Some(id);
    }

    /** `bdrv_remove_child`. */
    method RemoveChild(e: EdgeId)
      requires Valid() && e in edges && !edges[e].frozen && edges[e].bs.Some?
      modifies this
      ensures Valid() && Now() == WithoutChild(old(Now()), e)
    {
      hide Inv;
      WithoutChildInv(Now(), e);
      tran := tran + [Replaced(e, edges[e].bs)];
      edges := edges[e := edges[e].(bs := None)];
      tran := tran + [Removed(e)];
    }

    /** `bdrv_set_inherits_from`. */
    method SetInheritsFrom(n: NodeId, from: Option<NodeId>)
      requires Valid() && n in inherits && InheritsOk(inherits[n := from])
      modifies this
      ensures Valid() && Now() == WithInherits(old(Now()), n, from)
    {
      hide Inv;
      WithInheritsInv(Now(), n, from);
      tran := tran + [SetInherits(n, inherits[n])];
      inherits := inherits[n := from];
    }

    // -------------------------------------------------------------------------
    // The end of a transaction
    // -------------------------------------------------------------------------

    /** `tran_abort`: everything the transaction changed is as it was, once the unrefs that
        the abort has scheduled have run. */
    method TranAbort()
      requires Valid()
      modifies this
      ensures Settled(Now()) && ViewOf(Now()) == old(start)
      ensures nextEdge == old(nextEdge) && outside == old(outside) && dying == old(dying)
      ensures LeavesRefs(old(tran)) ==> scheduled == old(scheduled)
    {
      hide ChainInv;
      hide CountInv;
      hide EdgeInv;
      hide NoLooseEnds;
      hide StepBack;
      hide LeavesRefs;
      while tran != []
        invariant ChainInv(Now()) && CountInv(Now()) && StartInv(Now())
        invariant start == old(start)
        invariant LeavesRefs(old(tran)) ==> LeavesRefs(tran) && scheduled == old(scheduled)
        invariant nextEdge == old(nextEdge) && outside == old(outside) && dying == old(dying)
        decreases |tran|
      {
        StepBackInv(Now());
        StepBackFrame(Now());
        AbortLast();
      }
      AbortedInv(Now());
      start := ViewOf(Now());
      startScheduled := scheduled;
    }

    /** The `.abort` callback of the last action. */
    method AbortLast()
      requires ChainInv(Now()) && CountInv(Now()) && tran != []
      modifies this
      ensures ChainInv(Now()) && CountInv(Now())
      ensures Now() == StepBack(old(Now()))
    {
      hide ChainInv;
      hide CountInv;
      StepBackInv(Now());
      var a := tran[|tran| - 1];
      tran := tran[..|tran| - 1];
      match a {
        case SetPerm(e, oldGrant) =>
          edges := edges[e := edges[e].(grant := oldGrant)];
        case Replaced(e, oldBs) =>
          var newBs := edges[e].bs;
          edges := edges[e := edges[e].(bs := oldBs)];
          if newBs.Some? {
            refcnt := refcnt[newBs.value := refcnt[newBs.value] - 1];
            assert refcnt[newBs.value] > 0;   // so bdrv_unref does not delete the node
          }
        case Attached(e) =>
          scheduled := scheduled + multiset{edges[e].bs.value};
          edges := edges - {e};
        case SetInherits(n, oldFrom) =>
          inherits := inherits[n := oldFrom];
        case Removed(_) =>
        case DriverSetPerm(_) =>
      }
    }

    /** The `.commit` callback of the last action. */
    method CommitLastAction()
      requires tran != []
      modifies this
      ensures Now() == CommitOne(old(Now()), old(tran)[|old(tran)| - 1]).(tran := old(tran)[..|old(tran)| - 1])
    {
      var a := tran[|tran| - 1];
      tran := tran[..|tran| - 1];
      match a {
        case Removed(e) => edges := edges - {e};
        case Replaced(_, Some(n)) => scheduled := scheduled + multiset{n};
        case _ =>
      }
    }

    /** `tran_commit`: removed edges are freed, and every reference that a replace action
        held on to is scheduled to be dropped. */
    method TranCommit()
      requires Valid()
      modifies this
      ensures Settled(Now()) && Now() == Committed(old(Now()))
    {
      hide Inv;
      hide Settled;
      hide RunCommits;
      CommittedInv(Now());
      while tran != []
        invariant RunCommits(Now()) == old(RunCommits(Now()))
        decreases |tran|
      {
        CommitLast(Now());
        CommitLastAction();
      }
      NothingLeft(Now());
      start := ViewOf(Now());
      startScheduled := scheduled;
    }

    // -------------------------------------------------------------------------
    // Permission updates
    // -------------------------------------------------------------------------

    /** The loop over the children in `bdrv_node_refresh_perm`. */
    method SetChildPerms(n: NodeId, users: Grant)
      requires Valid() && users == Cumulative(edges, n) && Recomputes(world, n)
      modifies this
      ensures Valid() && OnlyPerms(old(Now()), Now()) && edges == SetChildren(world, old(edges), n)
    {
      hide Inv;
      hide Cumulative;
      hide LeavesRefs;
      hide Held;
      hide RemovedBy;
      var todo := ChildEdges(edges, n);
      while todo != {}
        invariant Valid() && OnlyPerms(old(Now()), Now())
        invariant todo <= ChildEdges(old(edges), n) && PartlySet(world, old(edges), edges, n, todo)
        decreases todo
      {
        var e :| e in todo;
        todo := todo - {e};
        var grant := ChildGrant(world, n, edges[e].role, edges[e].bs.value, users);
        OnlyPermsAppend(old(Now()), Now(), WithGrant(Now(), e, grant).edges, SetPerm(e, edges[e].grant));
        ChildSetPerm(e, grant);
      }
      assert edges == SetChildren(world, old(edges), n);
    }

    /** `bdrv_node_refresh_perm`. */
    method NodeRefreshPerm(n: NodeId) returns (v: Verdict)
      requires Valid()
      modifies this
      ensures Valid() && OnlyPerms(old(Now()), Now())
      ensures v == NodeVerdict(world, n, Cumulative(old(edges), n)) && CheckMeans(world, old(edges), n, v)
      ensures edges == if v == Fine then SetChildren(world, old(edges), n) else old(edges)
    {
      hide Inv;
      hide Cumulative;
      hide SetChildren;
      var users := GetCumulativePerm(edges, n);
      v := NodeVerdict(world, n, users);
      CheckIff(world, edges, n);
      if v != Fine {
        return;
      }
      if !world.info(n).hasDriver {
        NothingToSet(world, edges, n);
        return;
      }
      LogDriverSetPerm(n);
      if !world.info(n).hasChildPerm {
        NothingToSet(world, edges, n);
        return;
      }
      ghost var mid := Now();
      SetChildPerms(n, users);
      OnlyPermsTransitive(old(Now()), mid, Now());
    }

    /** `bdrv_drv_set_perm`, after the driver has agreed. */
    method LogDriverSetPerm(n: NodeId)
      requires Valid()
      modifies this
      ensures Valid() && OnlyPerms(old(Now()), Now()) && edges == old(edges)
    {
      hide Inv;
      hide OnlyPerms;
      LoggedDriverInv(Now(), n);
      LoggedOnlyPerms(Now(), n);
      tran := tran + [DriverSetPerm(n)];
    }

    /** `bdrv_do_refresh_perms`. */
    method DoRefreshPerms(list: seq<NodeId>) returns (v: Verdict)
      requires Valid()
      modifies this
      ensures Valid() && OnlyPerms(old(Now()), Now())
      ensures (v, edges) == RefreshList(world, old(edges), list)
    {
      hide Inv;
      hide Compatible;
      for k := 0 to |list|
        invariant Valid() && OnlyPerms(old(Now()), Now())
        invariant RefreshList(world, old(edges), list) == RefreshList(world, edges, list[k..])
      {
        var n := list[k];
        assert list[k..][0] == n && list[k..][1..] == list[k + 1..];
        var conflict := ParentPermsConflict(edges, n);
        if conflict {
          return Conflict;
        }
        ghost var mid := Now();
        v := NodeRefreshPerm(n);
        OnlyPermsTransitive(old(Now()), mid, Now());
        if v != Fine {
          return;
        }
      }
      v := Fine;
    }

    /** `bdrv_refresh_perms` and `bdrv_list_refresh_perms`. */
    method RefreshPermsBelow(roots: seq<NodeId>) returns (v: Verdict, ghost list: seq<NodeId>)
      requires Valid()
      modifies this
      ensures Valid() && OnlyPerms(old(Now()), Now())
      ensures Sorted(old(edges), list) && ExactlyBelow(old(edges), list, Elems(roots))
      ensures (v, edges) == RefreshList(world, old(edges), list)
    {
      var nodes := TopologicalDfsAll(edges, roots);
      hide *;
      list := nodes;
      v := DoRefreshPerms(nodes);
    }

    /** `tran_finalize`. */
    method Finalize(ok: bool)
      requires Valid()
      modifies this
      ensures Settled(Now()) && nextEdge == old(nextEdge) && outside == old(outside) && dying == old(dying)
      ensures ok ==> Now() == Committed(old(Now()))
      ensures !ok ==> ViewOf(Now()) == old(start) && (LeavesRefs(old(tran)) ==> scheduled == old(scheduled))
    {
      hide Inv;
      hide Settled;
      if ok {
        TranCommit();
      } else {
        TranAbort();
      }
    }

    /** `bdrv_schedule_unref`, called by a user that gives its reference up. */
    method ScheduleUnref(n: NodeId)
      requires Settled(Now()) && n in outside
      modifies this
      ensures Settled(Now()) && Now() == Scheduled(old(Now()), n)
    {
      hide Settled;
      ScheduledInv(Now(), n);
      scheduled := scheduled + multiset{n};
      outside := outside - multiset{n};
      start := ViewOf(Now());
      startScheduled := scheduled;
    }

    // -------------------------------------------------------------------------
    // Graph changes
    // -------------------------------------------------------------------------

    /** The tentative part of `bdrv_attach_child`. */
    method TryAttachChild(parent: NodeId, child: NodeId, role: Role) returns (ok: bool, ghost list: seq<NodeId>)
      requires Valid() && tran == [] && world.info(parent).hasDriver
      requires parent in refcnt && child in refcnt && child !in dying
      modifies this
      ensures Valid() && SameOutside(old(Now()), Now()) && inherits == old(inherits)
      ensures var es := old(edges)[old(nextEdge) := NewEdge(world, old(edges), parent, child, role)];
              && (!Reach(old(edges), child, parent) ==> Sorted(es, list) && ExactlyBelow(es, list, {parent}))
              && (ok ==> RefreshList(world, es, list) == (Fine, edges) && Committed(Now()).edges == edges)
              && (ok <==> !Reach(old(edges), child, parent) && RefreshList(world, es, list).0 == Fine)
    {
      hide Inv;
      hide RefreshList;
      hide Sorted;
      hide ExactlyBelow;
      hide NewEdge;
      list := [];
      ok := false;
      var e := AttachChildNoperm(parent, child, role);
      if e.Some? {
        var v: Verdict;
        v, list := RefreshPermsBelow([parent]);
        ok := v == Fine;
        assert Elems([parent]) == {parent};
        CommitAttach(old(Now()), NewEdge(world, old(edges), parent, child, role), Now());
      }
    }

    /** `bdrv_attach_child`.  The caller's reference to `child` is given up in any case.
        On failure nothing else has changed. */
    method AttachChild(parent: NodeId, child: NodeId, role: Role) returns (ok: bool, ghost list: seq<NodeId>)
      requires Settled(Now()) && world.info(parent).hasDriver
      requires parent in refcnt && child in refcnt && child !in dying && child in outside
      modifies this
      ensures Settled(Now()) && outside == old(outside) - multiset{child} && dying == old(dying)
      ensures inherits == old(inherits)
      ensures !ok ==> ViewOf(Now()) == old(ViewOf(Now())).(net := Drop(old(ViewOf(Now())).net, Some(child)))
      ensures var es := old(edges)[old(nextEdge) := NewEdge(world, old(edges), parent, child, role)];
              && (!Reach(old(edges), child, parent) ==> Sorted(es, list) && ExactlyBelow(es, list, {parent}))
              && (ok ==> RefreshList(world, es, list) == (Fine, edges))
              && (ok <==> !Reach(old(edges), child, parent) && RefreshList(world, es, list).0 == Fine)
      ensures PermsOk(world, old(edges)) ==> PermsOk(world, edges)
    {
      hide Inv;
      hide Settled;
      hide PermsOk;
      hide RefreshList;
      hide NewEdge;
      SettledFacts(Now());
      FreshName(Now());
      ok, list := TryAttachChild(parent, child, role);
      Finalize(ok);
      ScheduledInv(Now(), child);
      ScheduleUnref(child);
      if ok && PermsOk(world, old(edges)) {
        AttachPerms(world, old(edges), parent, child, role, old(nextEdge), list);
      }
    }

    /** The tentative part of `bdrv_root_attach_child`. */
    method TryRootAttachChild(child: NodeId, role: Role, grant: Grant, stay: bool)
      returns (ok: bool, ghost list: seq<NodeId>)
      requires Valid() && tran == [] && child in refcnt && child !in dying
      modifies this
      ensures Valid() && SameOutside(old(Now()), Now()) && inherits == old(inherits)
      ensures var es := old(edges)[old(nextEdge) := UserEdge(child, role, grant, stay)];
              && Sorted(es, list) && ExactlyBelow(es, list, {child})
              && (ok <==> RefreshList(world, es, list).0 == Fine)
              && (ok ==> RefreshList(world, es, list).1 == edges && Committed(Now()).edges == edges)
    {
      hide Inv;
      hide RefreshList;
      hide Sorted;
      hide ExactlyBelow;
      var e := AttachChildCommon(UserEdge(child, role, grant, stay));
      var v: Verdict;
      v, list := RefreshPermsBelow([child]);
      ok := v == Fine;
      assert Elems([child]) == {child};
      CommitAttach(old(Now()), UserEdge(child, role, grant, stay), Now());
    }

    /** `bdrv_root_attach_child`: a user outside the graph gets an edge with the permissions it
        asks for.  The caller's reference to `child` is given up in any case. */
    method RootAttachChild(child: NodeId, role: Role, grant: Grant, stay: bool)
      returns (ok: bool, ghost list: seq<NodeId>)
      requires Settled(Now()) && child in refcnt && child !in dying && child in outside
      modifies this
      ensures Settled(Now()) && outside == old(outside) - multiset{child} && dying == old(dying)
      ensures inherits == old(inherits)
      ensures !ok ==> ViewOf(Now()) == old(ViewOf(Now())).(net := Drop(old(ViewOf(Now())).net, Some(child)))
      ensures var es := old(edges)[old(nextEdge) := UserEdge(child, role, grant, stay)];
              && Sorted(es, list) && ExactlyBelow(es, list, {child})
              && (ok <==> RefreshList(world, es, list).0 == Fine)
              && (ok ==> RefreshList(world, es, list).1 == edges)
      ensures ok ==> old(nextEdge) in edges && edges[old(nextEdge)] == Edge(None, Some(child), role, grant, false, stay)
      ensures ok ==> edges.Keys == old(edges).Keys + {old(nextEdge)}
      ensures PermsOk(world, old(edges)) ==> PermsOk(world, edges)
    {
      hide Inv;
      hide Settled;
      hide PermsOk;
      hide RefreshList;
      SettledFacts(Now());
      FreshName(Now());
      ok, list := TryRootAttachChild(child, role, grant, stay);
      RootEdgeKept(world, old(edges), old(nextEdge), child, role, grant, stay, list);
      Finalize(ok);
      ScheduledInv(Now(), child);
      ScheduleUnref(child);
      if ok && PermsOk(world, old(edges)) {
        RootAttachPerms(world, old(edges), child, role, grant, stay, old(nextEdge), list);
      }
    }

    /** `bdrv_replace_node_noperm`: moves exactly the users of `from` that may be moved,
        whatever the order in which they are visited. */
    method ReplaceNodeNoperm(from: NodeId, to: NodeId, autoSkip: bool) returns (ok: bool)
      requires Valid() && NoMoveToSelf(edges, from, to) && to in refcnt && to !in dying
      modifies this
      ensures Valid() && SameOutside(old(Now()), Now())
      ensures nextEdge == old(nextEdge) && inherits == old(inherits) && RemovedBy(tran) == RemovedBy(old(tran))
      ensures ok ==> edges == Redirected(old(edges), from, to)
      ensures ok <==> AllMayMove(old(edges), from, to, autoSkip)
    {
      hide Inv;
      hide MayMove;
      hide RedirectedBut;
      hide RemovedBy;
      var todo := Parents(edges, from);
      RedirectedNone(edges, from, to);
      NobodyYet(edges, from, to, autoSkip);
      while todo != {}
        invariant Valid() && SameOutside(old(Now()), Now())
        invariant nextEdge == old(nextEdge) && inherits == old(inherits) && RemovedBy(tran) == RemovedBy(old(tran))
        invariant todo <= Parents(old(edges), from) && edges == RedirectedBut(old(edges), from, to, todo)
        invariant MayMove(old(edges), Parents(old(edges), from) - todo, to, autoSkip)
        decreases todo
      {
        var c :| c in todo;
        MovableUnchanged(old(edges), from, to, todo, c);
        RedirectOne(old(edges), from, to, todo, c);
        MayMoveNext(old(edges), from, todo, c, to, autoSkip);
        todo := todo - {c};
        var update := ShouldUpdateChild(edges, c, to);
        if !update {
          if !autoSkip {
            return false;
          }
        } else if edges[c].frozen {
          return false;
        } else {
          RemovedAppend(tran, Replaced(c, edges[c].bs));
          ReplaceChildTran(c, to);
        }
      }
      assert Parents(old(edges), from) - {} == Parents(old(edges), from);
      ok := true;
    }

    /** Remove the optional edge `d` tentatively. */
    method DetachOptional(d: Option<EdgeId>)
      requires Valid()
      requires d.Some? ==> d.value in edges && edges[d.value].bs.Some? && !edges[d.value].frozen
      modifies this
      ensures Valid() && SameOutside(old(Now()), Now()) && nextEdge == old(nextEdge) && inherits == old(inherits)
      ensures edges == Detached(old(edges), d) && RemovedBy(tran) == RemovedBy(old(tran)) + OptSet(d)
    {
      hide Inv;
      if d.Some? {
        RemovedAppend(tran, Replaced(d.value, edges[d.value].bs));
        RemovedAppend(tran + [Replaced(d.value, edges[d.value].bs)], Removed(d.value));
        RemoveChild(d.value);
      }
    }

    /** The tentative part of `bdrv_replace_node_common`. */
    method TryReplaceNode(from: NodeId, to: NodeId, autoSkip: bool, d: Option<EdgeId>)
      returns (ok: bool, ghost list: seq<NodeId>)
      requires Valid() && tran == [] && NoMoveToSelf(edges, from, to) && to in refcnt && to !in dying
      requires LeadsTo(edges, d, from, to) && (d.Some? ==> !edges[d.value].frozen)
      modifies this
      ensures Valid() && SameOutside(old(Now()), Now()) && inherits == old(inherits)
      ensures var es := Detached(Redirected(old(edges), from, to), d);
              && (AllMayMove(old(edges), from, to, autoSkip) ==> Sorted(es, list) && ExactlyBelow(es, list, {from, to}))
              && (ok <==> AllMayMove(old(edges), from, to, autoSkip) && RefreshList(world, es, list).0 == Fine)
              && (ok ==> RefreshList(world, es, list).1 == edges && RemovedBy(tran) == OptSet(d))
    {
      hide Inv;
      hide RefreshList;
      hide Sorted;
      hide ExactlyBelow;
      hide AllMayMove;
      list := [];
      ok := ReplaceNodeNoperm(from, to, autoSkip);
      if ok {
        DetachOptional(d);
        var v: Verdict;
        v, list := RefreshPermsBelow([from, to]);
        ok := v == Fine;
        assert Elems([from, to]) == {from, to};
      }
    }

    /** `bdrv_replace_node_common`; `d` is the edge that `detach_subchain` removes. */
    method ReplaceNode(from: NodeId, to: NodeId, autoSkip: bool, d: Option<EdgeId>)
      returns (ok: bool, ghost list: seq<NodeId>)
      requires Settled(Now()) && NoMoveToSelf(edges, from, to) && to in refcnt && to !in dying
      requires LeadsTo(edges, d, from, to) && (d.Some? ==> !edges[d.value].frozen)
      modifies this
      ensures Settled(Now()) && outside == old(outside) && dying == old(dying) && inherits == old(inherits)
      ensures !ok ==> ViewOf(Now()) == old(ViewOf(Now()))
      ensures var es := Detached(Redirected(old(edges), from, to), d);
              && (AllMayMove(old(edges), from, to, autoSkip) ==> Sorted(es, list) && ExactlyBelow(es, list, {from, to}))
              && (ok <==> AllMayMove(old(edges), from, to, autoSkip) && RefreshList(world, es, list).0 == Fine)
              && (ok ==> edges == RefreshList(world, es, list).1 - OptSet(d))
      ensures PermsOk(world, old(edges)) ==>
                (PermsOk(world, edges) <==> (ok ==> MovedCovered(world, old(edges), from, to)))
      ensures PermsOk(world, old(edges)) && ShareCompatible(world, from, to) ==> PermsOk(world, edges)
    {
      hide Inv;
      hide Settled;
      hide PermsOk;
      hide RefreshList;
      hide Sorted;
      hide ExactlyBelow;
      hide Redirected;
      SettledFacts(Now());
      ok, list := TryReplaceNode(from, to, autoSkip, d);
      ghost var es := edges;
      if ok {
        CommittedEdges(Now(), d);
        if PermsOk(world, old(edges)) {
          ReplacePerms(world, old(edges), from, to, d, list);
          if d.Some? { StaysDetached(world, old(edges), from, to, d.value, list); }
          FreeingKeepsPerms(world, edges, OptSet(d));
        }
      }
      if PermsOk(world, old(edges)) && ShareCompatible(world, from, to) {
        ShareCompatibleCovers(world, old(edges), from, to);
      }
      Finalize(ok);
    }

    /** The tentative part of `bdrv_append`. */
    method TryAppend(overlay: NodeId, top: NodeId, role: Role) returns (ok: bool, ghost list: seq<NodeId>)
      requires Valid() && tran == [] && world.info(overlay).hasDriver
      requires overlay in refcnt && overlay !in dying && top in refcnt && top !in dying
      modifies this
      ensures Valid() && SameOutside(old(Now()), Now()) && inherits == old(inherits)
      ensures var es := Appended(world, old(edges), old(nextEdge), top, overlay, role);
              var may := MayAppend(world, old(edges), old(nextEdge), top, overlay, role);
              && (may ==> Sorted(es, list) && ExactlyBelow(es, list, {overlay}))
              && (ok <==> may && RefreshList(world, es, list).0 == Fine)
              && (ok ==> RefreshList(world, es, list).1 == edges && RemovedBy(tran) == {})
    {
      hide Inv;
      hide RefreshList;
      hide Sorted;
      hide ExactlyBelow;
      hide Redirected;
      hide AllMayMove;
      hide NewEdge;
      list := [];
      ok := false;
      ReachSelf(edges, top);
      RemovedAppend(tran, Attached(nextEdge));
      var e := AttachChildNoperm(overlay, top, role);
      if e.Some? {
        ok := ReplaceNodeNoperm(top, overlay, true);
        if ok {
          var v: Verdict;
          v, list := RefreshPermsBelow([overlay]);
          ok := v == Fine;
          assert Elems([overlay]) == {overlay};
        }
      }
    }

    /** `bdrv_append`: puts `overlay` on top of `top`, or changes nothing. */
    method Append(overlay: NodeId, top: NodeId, role: Role) returns (ok: bool, ghost list: seq<NodeId>)
      requires Settled(Now()) && world.info(overlay).hasDriver
      requires overlay in refcnt && overlay !in dying && top in refcnt && top !in dying
      modifies this
      ensures Settled(Now()) && outside == old(outside) && dying == old(dying) && inherits == old(inherits)
      ensures !ok ==> ViewOf(Now()) == old(ViewOf(Now()))
      ensures var es := Appended(world, old(edges), old(nextEdge), top, overlay, role);
              var may := MayAppend(world, old(edges), old(nextEdge), top, overlay, role);
              && (may ==> Sorted(es, list) && ExactlyBelow(es, list, {overlay}))
              && (ok <==> may && RefreshList(world, es, list).0 == Fine)
              && (ok ==> RefreshList(world, es, list).1 == edges)
      ensures PermsOk(world, old(edges)) ==>
                (PermsOk(world, edges) <==> (ok ==> MovedCovered(world, old(edges), top, overlay)))
      ensures PermsOk(world, old(edges)) && ShareCompatible(world, top, overlay) ==> PermsOk(world, edges)
    {
      hide Inv;
      hide Settled;
      hide PermsOk;
      hide RefreshList;
      hide Sorted;
      hide ExactlyBelow;
      hide Appended;
      SettledFacts(Now());
      FreshName(Now());
      ok, list := TryAppend(overlay, top, role);
      if ok {
        CommittedEdges(Now(), None);
        MapMinus(edges, {}, {});
        if PermsOk(world, old(edges)) {
          AppendPerms(world, old(edges), old(nextEdge), top, overlay, role, list);
        }
      }
      if PermsOk(world, old(edges)) && ShareCompatible(world, top, overlay) {
        ShareCompatibleCovers(world, old(edges), top, overlay);
      }
      Finalize(ok);
    }

    /** `bdrv_unset_inherits_from`, on the way down from edge `e` of `root`; `c` is the edge
        through which the current node is visited. */
    method UnsetInheritsFrom(root: NodeId, ghost e: EdgeId, c: EdgeId)
      requires Valid() && OnTheWayDown(edges, root, e, c)
      modifies this
      ensures Valid() && OnlyInherits(old(Now()), Now())
      ensures inherits == Cleared(edges, old(inherits), root, e, Below(edges, edges[c].bs.value))
      decreases Below(edges, edges[c].bs.value)
    {
      hide Inv;
      hide Cleared;
      hide ClearedBut;
      hide ChildEdges;
      hide Held;
      hide RemovedBy;
      hide OtherLink;
      hide Below;
      InheritsDefined(Now(), c);
      var n := edges[c].bs.value;
      ClearedFirst(edges, inherits, root, e, c);
      if inherits[n] == Some(root) && !OtherLink(edges, root, c, n) {
        RemovedAppend(tran, SetInherits(n, inherits[n]));
        HeldAppend(tran, SetInherits(n, inherits[n]));
        FewerPointers(inherits, inherits[n := None]);
        SetInheritsFrom(n, None);
      }
      var todo := ChildEdges(edges, n);
      while todo != {}
        invariant Valid() && OnlyInherits(old(Now()), Now()) && todo <= ChildEdges(edges, n)
        invariant inherits == ClearedBut(edges, old(inherits), root, e, n, todo)
        decreases todo
      {
        var d :| d in todo;
        WayDownChild(edges, root, e, c, d);
        UnsetInheritsFrom(root, e, d);
        ClearedNext(edges, old(inherits), root, e, n, todo, d);
        todo := todo - {d};
      }
      ClearedAll(edges, old(inherits), root, e, n);
    }

    /** Give the current child `d` of `parent` up tentatively. */
    method GiveUpChild(parent: NodeId, d: Option<EdgeId>)
      requires Valid()
      requires d.Some? ==> d.value in edges && edges[d.value].owner == Some(parent)
      requires d.Some? ==> edges[d.value].bs.Some? && !edges[d.value].frozen
      modifies this
      ensures Valid() && SameOutside(old(Now()), Now()) && nextEdge == old(nextEdge)
      ensures edges == Detached(old(edges), d) && RemovedBy(tran) == RemovedBy(old(tran)) + OptSet(d)
      ensures inherits == ClearedBelow(old(edges), old(inherits), parent, d)
    {
      hide Inv;
      hide Cleared;
      if d.Some? {
        InheritsDefined(Now(), d.value);
        ReachSelf(edges, edges[d.value].bs.value);
      }
      if d.Some? {
        UnsetInheritsFrom(parent, d.value, d.value);
      }
      DetachOptional(d);
    }

    /** Attach the new file or backing child tentatively. */
    method AttachInheriting(parent: NodeId, child: NodeId, role: Role, inherited: bool) returns (ok: bool)
      requires Valid() && world.info(parent).hasDriver && parent in refcnt && child in refcnt && child !in dying
      requires inherited && child != parent ==> !InheritsFrom(inherits, parent, child)
      modifies this
      ensures Valid() && SameOutside(old(Now()), Now()) && RemovedBy(tran) == RemovedBy(old(tran))
      ensures ok <==> !Reach(old(edges), child, parent)
      ensures ok ==> edges == old(edges)[old(nextEdge) := NewEdge(world, old(edges), parent, child, role)]
      ensures ok ==> inherits == if inherited then old(inherits)[child := Some(parent)] else old(inherits)
    {
      hide Inv;
      hide NewEdge;
      RemovedAppend(tran, Attached(nextEdge));
      var e := AttachChildNoperm(parent, child, role);
      ok := e.Some?;
      ReachSelf(old(edges), child);
      if ok && inherited {
        KnownNode(Now(), child);
        NewPointer(inherits, child, parent);
        RemovedAppend(tran, SetInherits(child, inherits[child]));
        SetInheritsFrom(child, Some(parent));
      }
    }

    /** `bdrv_set_file_or_backing_noperm`.  `d` is the current file or backing child; `role` is
        absent where the driver cannot have such a child or its role is unknown. */
    method SetFileOrBackingNoperm(parent: NodeId, child: Option<NodeId>, d: Option<EdgeId>, role: Option<Role>)
      returns (ok: bool)
      requires Valid() && parent in refcnt
      requires child.Some? ==> child.value in refcnt && child.value !in dying
      requires d.Some? ==> d.value in edges && edges[d.value].owner == Some(parent) && edges[d.value].bs.Some?
      modifies this
      ensures Valid() && SameOutside(old(Now()), Now())
      ensures ok <==> MaySetChild(world, old(edges), parent, child, d, role)
      ensures ok ==> && edges == NewChild(world, old(edges), old(nextEdge), parent, child, role.value, d)
                     && RemovedBy(tran) == RemovedBy(old(tran)) + OptSet(d)
      ensures ok ==> inherits == NewInherits(old(edges), old(inherits), parent, child, d)
    {
      hide Inv;
      hide ClearedBelow;
      hide NewEdge;
      hide InheritsFrom;
      if !world.info(parent).hasDriver || (d.Some? && edges[d.value].frozen) || role.None? {
        return false;
      }
      var inherited := false;
      KnownNode(Now(), parent);
      if child.Some? {
        inherited := InheritsFromRecursive(inherits, child.value, parent);
      }
      GiveUpChild(parent, d);
      ClearedFewer(old(edges), old(inherits), parent, d);
      if child.Some? && inherited && child.value != parent {
        NotBothWays(old(inherits), inherits, child.value, parent);
      }
      ok := true;
      if child.Some? {
        ok := AttachInheriting(parent, child.value, role.value, inherited);
      }
    }

    /** The tentative part of `bdrv_set_backing_hd_drained`. */
    method TrySetBackingHd(parent: NodeId, child: Option<NodeId>, d: Option<EdgeId>, role: Option<Role>)
      returns (ok: bool, ghost list: seq<NodeId>)
      requires Valid() && tran == [] && parent in refcnt
      requires child.Some? ==> child.value in refcnt && child.value !in dying
      requires d.Some? ==> d.value in edges && edges[d.value].owner == Some(parent) && edges[d.value].bs.Some?
      modifies this
      ensures Valid() && SameOutside(old(Now()), Now())
      ensures MaySetChild(world, old(edges), parent, child, d, role) ==>
                && var es := NewChild(world, old(edges), old(nextEdge), parent, child, role.value, d);
                && Sorted(es, list) && ExactlyBelow(es, list, {parent})
                && (ok <==> RefreshList(world, es, list).0 == Fine)
                && (ok ==> RefreshList(world, es, list).1 == edges && RemovedBy(tran) == OptSet(d))
      ensures ok ==> MaySetChild(world, old(edges), parent, child, d, role)
      ensures ok ==> inherits == NewInherits(old(edges), old(inherits), parent, child, d)
    {
      hide Inv;
      hide RefreshList;
      hide Sorted;
      hide ExactlyBelow;
      hide NewChild;
      hide NewInherits;
      list := [];
      ok := SetFileOrBackingNoperm(parent, child, d, role);
      if ok {
        var v: Verdict;
        v, list := RefreshPermsBelow([parent]);
        ok := v == Fine;
        assert Elems([parent]) == {parent};
      }
    }

    /** `bdrv_set_backing_hd_drained`: exchanges the backing child, or changes nothing. */
    method SetBackingHd(parent: NodeId, child: Option<NodeId>, d: Option<EdgeId>, role: Option<Role>)
      returns (ok: bool, ghost list: seq<NodeId>)
      requires Settled(Now()) && parent in refcnt
      requires child.Some? ==> child.value in refcnt && child.value !in dying
      requires d.Some? ==> d.value in edges && edges[d.value].owner == Some(parent)
      modifies this
      ensures Settled(Now()) && outside == old(outside) && dying == old(dying)
      ensures !ok ==> ViewOf(Now()) == old(ViewOf(Now()))
      ensures MaySetChild(world, old(edges), parent, child, d, role) ==>
                && var es := NewChild(world, old(edges), old(nextEdge), parent, child, role.value, d);
                && Sorted(es, list) && ExactlyBelow(es, list, {parent})
                && (ok <==> RefreshList(world, es, list).0 == Fine)
                && (ok ==> edges == RefreshList(world, es, list).1 - OptSet(d))
      ensures ok ==> MaySetChild(world, old(edges), parent, child, d, role)
      ensures ok ==> inherits == NewInherits(old(edges), old(inherits), parent, child, d)
      ensures PermsOk(world, old(edges)) ==> PermsOk(world, edges)
    {
      hide Inv;
      hide Settled;
      hide PermsOk;
      hide RefreshList;
      hide Sorted;
      hide ExactlyBelow;
      hide NewChild;
      hide NewInherits;
      SettledFacts(Now());
      FreshName(Now());
      if d.Some? { UnlinkedInv(Now(), d.value); }
      ok, list := TrySetBackingHd(parent, child, d, role);
      if ok {
        CommittedEdges(Now(), d);
        if PermsOk(world, old(edges)) {
          NewChildPerms(world, old(edges), old(nextEdge), parent, child, role.value, d, list);
          FreeingKeepsPerms(world, edges, OptSet(d));
        }
      }
      Finalize(ok);
    }

    /** `bdrv_replace_child_noperm` with no new node, and `bdrv_child_free`. */
    method Unlink(e: EdgeId) returns (n: NodeId)
      requires Settled(Now()) && e in edges && !edges[e].frozen
      modifies this
      ensures old(edges)[e].bs == Some(n)
      ensures Settled(Now()) && Now() == Unlinked(old(Now()), e)
    {
      hide Settled;
      UnlinkedInv(Now(), e);
      n := edges[e].bs.value;
      edges := edges - {e};
      outside := outside + multiset{n};
      start := ViewOf(Now());
      startScheduled := scheduled;
    }

    /** `bdrv_root_unref_child`.  The verdict of the refresh is ignored. */
    method RootUnrefChild(e: EdgeId) returns (ghost v: Verdict, ghost list: seq<NodeId>)
      requires Settled(Now()) && e in edges && !edges[e].frozen
      modifies this
      ensures Settled(Now()) && outside == old(outside) && dying == old(dying) && nextEdge == old(nextEdge)
      ensures old(edges)[e].bs.Some?
      ensures inherits == old(inherits) && refcnt == old(refcnt)
      ensures scheduled == old(scheduled) + multiset{old(edges)[e].bs.value}
      ensures Sorted(old(edges) - {e}, list) && ExactlyBelow(old(edges) - {e}, list, {old(edges)[e].bs.value})
      ensures v == RefreshList(world, old(edges) - {e}, list).0
      ensures edges == if v == Fine then RefreshList(world, old(edges) - {e}, list).1 else old(edges) - {e}
      ensures PermsOk(world, old(edges)) ==>
                && PermsOk(world, edges) && v in {Fine, Unaligned, Refused}
                && (v != Fine <==> Misfits(world, old(edges) - {e}, list))
    {
      hide Settled;
      hide PermsOk;
      hide RefreshList;
      hide Sorted;
      hide ExactlyBelow;
      hide ViewOf;
      var n := Unlink(e);
      v, list := RefreshLoosened(n);
      if PermsOk(world, old(edges)) {
        UnlinkPerms(world, old(edges), e, list);
      }
      ScheduleUnref(n);
      assert outside == old(outside);
    }

    /** `bdrv_refresh_perms` in a transaction of its own. */
    method RefreshLoosened(n: NodeId) returns (v: Verdict, ghost list: seq<NodeId>)
      requires Settled(Now())
      modifies this
      ensures Settled(Now()) && outside == old(outside) && dying == old(dying) && nextEdge == old(nextEdge)
      ensures Sorted(old(edges), list) && ExactlyBelow(old(edges), list, {n})
      ensures v == RefreshList(world, old(edges), list).0
      ensures edges == if v == Fine then RefreshList(world, old(edges), list).1 else old(edges)
      ensures inherits == old(inherits) && refcnt == old(refcnt) && scheduled == old(scheduled)
    {
      hide Settled;
      hide Inv;
      hide RefreshList;
      hide Sorted;
      hide ExactlyBelow;
      SettledFacts(Now());
      v, list := RefreshPermsBelow([n]);
      assert Elems([n]) == {n};
      PermsCommit(old(Now()), Now());
      Finalize(v == Fine);
      SameNet(old(Now()), Now());
    }

    /** `bdrv_unref_child`. */
    method UnrefChild(parent: NodeId, e: EdgeId)
      requires Settled(Now()) && e in edges && edges[e].owner == Some(parent) && !edges[e].frozen
      modifies this
      ensures Settled(Now()) && outside == old(outside) && dying == old(dying) && nextEdge == old(nextEdge)
      ensures refcnt == old(refcnt) && Without(old(edges), edges, {e})
      ensures old(edges)[e].bs.Some? && scheduled == old(scheduled) + multiset{old(edges)[e].bs.value}
      ensures inherits == ClearedBelow(old(edges), old(inherits), parent, Some(e))
      ensures PermsOk(world, old(edges)) ==> PermsOk(world, edges)
    {
      hide Settled;
      hide Inv;
      hide PermsOk;
      hide RefreshList;
      hide Sorted;
      hide ExactlyBelow;
      hide ViewOf;
      hide Without;
      hide Cleared;
      SettledFacts(Now());
      UnlinkedInv(Now(), e);
      InheritsDefined(Now(), e);
      ReachSelf(edges, edges[e].bs.value);
      UnsetInheritsFrom(parent, e, e);
      InheritsCommit(old(Now()), Now());
      TranCommit();                       // there is no transaction: nothing can be rolled back
      ghost var v, list := RootUnrefChild(e);
      RefreshedWithout(world, old(edges), e, list);
    }

    /** `bdrv_freeze_backing_chain`: all edges of the chain from `bs` to `base` are frozen, or none.
        `below` is `bdrv_filter_or_cow_child`, and the nodes in `never` have `never_freeze` set. */
    method FreezeBackingChain(bs: NodeId, base: Option<NodeId>, below: NodeId -> Option<EdgeId>, never: set<NodeId>)
      returns (ok: bool, ghost chain: seq<EdgeId>)
      requires Settled(Now()) && Picks(edges, below)
      requires base.Some? ==> exists c :: IsChain(edges, below, c, bs, base)
      modifies this
      ensures IsChain(old(edges), below, chain, bs, base) && Settled(Now())
      ensures forall e :: e in chain ==> e in old(edges) && old(edges)[e].bs.Some?
      ensures ok <==> forall e :: e in chain ==> !old(edges)[e].frozen && old(edges)[e].bs.value !in never
      ensures Now() ==
                if ok then Settle(old(Now()).(edges := Refrozen(old(edges), ChainSet(chain), true))) else old(Now())
    {
      hide Settled;
      hide IsChain;
      SettledFacts(Now());
      var c := WalkChain(edges, below, bs, base);
      chain := c;
      forall e | e in c ensures e in edges && edges[e].bs.Some? { ChainEdges(edges, below, c, bs, base, e); }
      for i := 0 to |c|
        invariant forall k :: 0 <= k < i ==> !edges[c[k]].frozen
      {
        if edges[c[i]].frozen {
          return false, chain;
        }
      }
      for i := 0 to |c|
        invariant forall k :: 0 <= k < i ==> edges[c[k]].bs.value !in never
      {
        if edges[c[i]].bs.value in never {
          return false, chain;
        }
      }
      SetFrozen(c, true);
      ok := true;
    }

    /** `bdrv_unfreeze_backing_chain`. */
    method UnfreezeBackingChain(bs: NodeId, base: Option<NodeId>, below: NodeId -> Option<EdgeId>)
      returns (ghost chain: seq<EdgeId>)
      requires Settled(Now()) && Picks(edges, below)
      requires base.Some? ==> exists c :: IsChain(edges, below, c, bs, base)
      requires forall c, e :: IsChain(edges, below, c, bs, base) && e in c ==> e in edges && edges[e].frozen
      modifies this
      ensures IsChain(old(edges), below, chain, bs, base)
      ensures Settled(Now()) && Now() == Settle(old(Now()).(edges := Refrozen(old(edges), ChainSet(chain), false)))
    {
      hide Settled;
      hide IsChain;
      SettledFacts(Now());
      var c := WalkChain(edges, below, bs, base);
      chain := c;
      assert forall e :: e in c ==> edges[e].frozen;
      SetFrozen(c, false);
    }

    /** The loop that sets or clears the flag. */
    method SetFrozen(chain: seq<EdgeId>, frozen: bool)
      requires Settled(Now()) && forall e :: e in chain ==> e in edges
      modifies this
      ensures Settled(Now()) && Now() == Settle(old(Now()).(edges := Refrozen(old(edges), ChainSet(chain), frozen)))
    {
      hide Settled;
      hide Refrozen;
      hide ChainSet;
      hide OnlyFrozen;
      hide ViewOf;
      var es := edges;
      RefrozenNone(edges, frozen);
      assert chain[..0] == [] && chain[..|chain|] == chain;
      for i := 0 to |chain|
        invariant Now() == old(Now()) && es == Refrozen(edges, ChainSet(chain[..i]), frozen)
      {
        RefrozenNext(edges, chain, i, frozen);
        es := es[chain[i] := es[chain[i]].(frozen := frozen)];
      }
      RefrozenOnly(edges, ChainSet(chain), frozen);
      OnlyFrozenInv(old(Now()), es);
      edges := es;
      start := ViewOf(Now());
      startScheduled := scheduled;
    }

    /** The driver's close callback. */
    method CloseDriver(n: NodeId)
      requires Settled(Now())
      modifies this
      ensures Settled(Now()) && Now() == Settle(old(Now()).(edges := Unfrozen(old(edges), n)))
    {
      hide Settled;
      OnlyFrozenInv(Now(), Unfrozen(edges, n));
      edges := Unfrozen(edges, n);
      start := ViewOf(Now());
      startScheduled := scheduled;
    }

    /** The loop over the children in `bdrv_close`. */
    method UnrefChildren(n: NodeId)
      requires Settled(Now()) && forall e :: e in ChildEdges(edges, n) ==> !edges[e].frozen
      modifies this
      ensures Settled(Now()) && outside == old(outside) && nextEdge == old(nextEdge)
      ensures dying == old(dying) && refcnt == old(refcnt)
      ensures Without(old(edges), edges, ChildEdges(old(edges), n))
      ensures |scheduled| == |old(scheduled)| + |ChildEdges(old(edges), n)|
      ensures inherits == Disowned(old(edges), old(inherits), n)
      ensures PermsOk(world, old(edges)) ==> PermsOk(world, edges)
    {
      hide Settled;
      hide PermsOk;
      hide Without;
      hide ClearedBelow;
      hide Disowning;
      hide Disowned;
      hide Inv;
      hide ViewOf;
      SettledFacts(Now());
      DisowningNone(edges, inherits, n);
      WithoutNothing(edges);
      var todo := ChildEdges(edges, n);
      assert ChildEdges(edges, n) - todo == {};
      while todo != {}
        invariant Settled(Now()) && outside == old(outside) && nextEdge == old(nextEdge)
        invariant dying == old(dying) && refcnt == old(refcnt)
        invariant todo <= ChildEdges(old(edges), n) && Without(old(edges), edges, ChildEdges(old(edges), n) - todo)
        invariant |scheduled| == |old(scheduled)| + |ChildEdges(old(edges), n) - todo|
        invariant inherits == Disowning(old(edges), old(inherits), n, todo)
        invariant PermsOk(world, old(edges)) ==> PermsOk(world, edges)
        decreases todo
      {
        var e :| e in todo;
        ChildStillThere(old(edges), edges, n, todo, e);
        ghost var es := edges;
        DisowningStep(old(edges), es, old(inherits), n, todo, e);
        UnrefChild(n, e);
        ChildGone(old(edges), es, edges, n, todo, e);
        todo := todo - {e};
      }
      assert ChildEdges(old(edges), n) - {} == ChildEdges(old(edges), n);
      DisowningAll(old(edges), old(inherits), n);
    }

    method Free(n: NodeId)
      requires Settled(Now()) && n in dying && n in refcnt && ChildEdges(edges, n) == {}
      modifies this
      ensures Settled(Now()) && Now() == Freed(old(Now()), n) && Parents(edges, n) == {}
    {
      hide Settled;
      FreedInv(Now(), n);
      refcnt := refcnt - {n};
      inherits := inherits - {n};
      dying := dying - {n};
      start := ViewOf(Now());
      startScheduled := scheduled;
    }

    /** `bdrv_delete` and the part of `bdrv_close` that gives the children up. */
    method Delete(n: NodeId)
      requires Settled(Now()) && n in dying && n in refcnt
      modifies this
      ensures Settled(Now()) && outside == old(outside) && nextEdge == old(nextEdge)
      ensures dying == old(dying) - {n} && refcnt == old(refcnt) - {n}
      ensures Parents(edges, n) == {} && Without(old(edges), edges, ChildEdges(old(edges), n))
      ensures inherits == Disowned(old(edges), old(inherits), n) - {n}
      ensures |scheduled| == |old(scheduled)| + |ChildEdges(old(edges), n)|
      ensures PermsOk(world, old(edges)) ==> PermsOk(world, edges)
    {
      hide Settled;
      hide PermsOk;
      hide Without;
      hide ViewOf;
      hide Disowned;
      SettledEdges(Now(), n);
      CloseDriver(n);
      ghost var es := edges;
      assert ChildEdges(es, n) == ChildEdges(old(edges), n);
      if PermsOk(world, old(edges)) { SameGrantsPerms(world, old(edges), es); }
      UnrefChildren(n);
      DeletedChildren(old(edges), edges, n);
      DisownedUnfrozen(old(edges), es, old(inherits), n);
      Free(n);
    }

    /** The decrement in `bdrv_unref`. */
    method Unreference(n: NodeId) returns (last: bool)
      requires Settled(Now()) && n in scheduled
      modifies this
      ensures n in old(refcnt) && old(refcnt)[n] > 0
      ensures Settled(Now()) && Now() == Unreferenced(old(Now()), n)
      ensures last <==> old(refcnt)[n] == 1
    {
      hide Settled;
      UnreferencedInv(Now(), n);
      last := refcnt[n] == 1;
      scheduled := scheduled - multiset{n};
      dying := if last then dying + {n} else dying;
      refcnt := refcnt[n := refcnt[n] - 1];
      start := ViewOf(Now());
      startScheduled := scheduled;
    }

    /** `bdrv_schedule_unref_bh`, that is `bdrv_unref`. */
    method RunScheduledUnref(n: NodeId) returns (deleted: bool)
      requires Settled(Now()) && n in scheduled && dying == {}
      modifies this
      ensures Settled(Now()) && outside == old(outside) && dying == {}
      ensures n in old(refcnt) && old(refcnt)[n] > 0
      ensures deleted <==> old(refcnt)[n] == 1
      ensures !deleted ==> Now() == Unreferenced(old(Now()), n)
      ensures deleted ==> refcnt == old(refcnt) - {n} && Parents(edges, n) == {}
      ensures deleted ==> Without(old(edges), edges, ChildEdges(old(edges), n))
      ensures deleted ==> inherits == Disowned(old(edges), old(inherits), n) - {n}
      ensures Pending(Now()) < old(Pending(Now()))
      ensures PermsOk(world, old(edges)) ==> PermsOk(world, edges)
    {
      hide Settled;
      hide PermsOk;
      hide Without;
      hide ViewOf;
      deleted := Unreference(n);
      if deleted {
        Delete(n);
        assert refcnt == old(refcnt) - {n};
        FewerEdges(old(edges), edges, ChildEdges(old(edges), n));
      }
    }

    /** The main loop runs the scheduled bottom halves until none is left: this ends, the nodes
        that a user outside the graph keeps alive are exactly those that are left, with their
        edges, and they are exactly accounted for by edges and outside references.  If every
        node keeps a reference, nothing but the counts changes. */
    method RunBottomHalves()
      requires Settled(Now()) && dying == {}
      modifies this
      ensures Settled(Now()) && outside == old(outside) && dying == {} && scheduled == multiset{}
      ensures forall n :: n in refcnt <==> n in old(refcnt) && Survives(old(Now()), n)
      ensures Without(old(edges), edges, Orphans(old(edges), refcnt.Keys))
      ensures forall n :: n in refcnt ==> refcnt[n] == |Parents(edges, n)| + outside[n] && Survives(Now(), n)
      ensures AllKept(old(Now())) ==> ViewOf(Now()) == old(ViewOf(Now())) && refcnt == ViewOf(Now()).net
      ensures PermsOk(world, old(edges)) ==> PermsOk(world, edges)
    {
      hide Settled;
      hide PermsOk;
      hide Without;
      hide Pending;
      hide Reaped;
      hide AllKept;
      hide ViewOf;
      hide Survives;
      hide Orphans;
      NothingReaped(Now());
      while scheduled != multiset{}
        invariant Settled(Now()) && outside == old(outside) && dying == {} && Reaped(old(Now()), Now())
        invariant AllKept(old(Now())) ==> AllKept(Now()) && ViewOf(Now()) == old(ViewOf(Now()))
        invariant PermsOk(world, old(edges)) ==> PermsOk(world, edges)
        decreases Pending(Now())
      {
        var n :| n in scheduled;
        ghost var s := Now();
        var deleted := RunScheduledUnref(n);
        if AllKept(s) { KeptStep(s, n); }
        if deleted {
          LastReference(s, n);
          ReapOne(old(Now()), s, Now(), n);
        } else {
          ReapedSame(old(Now()), s, Now());
        }
      }
      AllRooted(Now());
      OnlySurvivors(old(Now()), Now());
      NoneScheduled(Now());
      ReapedEdges(old(Now()), Now());
    }

    /** After an aborted transaction and the unrefs that it has scheduled, edges, inherited
        options and reference counts are what they were when it began. */
    method AbortAndRun()
      requires Valid() && dying == {}
      requires forall n :: n in start.net ==> start.net[n] > 0
      modifies this
      ensures Settled(Now()) && outside == old(outside) && dying == {} && scheduled == multiset{}
      ensures edges == old(start).edges && inherits == old(start).inherits && refcnt == old(start).net
    {
      hide Inv;
      hide Settled;
      hide LeavesRefs;
      hide Without;
      hide Survives;
      hide Orphans;
      hide AllKept;
      TranAbort();
      KeptFromView(Now());
      RunBottomHalves();
    }
  }
}
