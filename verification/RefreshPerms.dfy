/** Recomputing the permissions of a part of the block graph (`bdrv_do_refresh_perms`). */
module RefreshPerms {

  import opened Wrappers
  import opened Permissions
  import opened Graph
  import opened GraphSearch

  /** What a refresh needs to know about a node.  `hasChildPerm` is false for drivers that
      never have children and therefore omit `.bdrv_child_perm`. */
  datatype NodeInfo = NodeInfo(hasDriver: bool, hasChildPerm: bool, writable: bool,
                               sizeAligned: bool, forceShare: bool)

  /** The drivers: arbitrary `.bdrv_child_perm` and `.bdrv_check_perm` callbacks. */
  datatype World = World(info: NodeId -> NodeInfo,
                         childPerm: (NodeId, Role, Grant) -> Grant,
                         checkPerm: (NodeId, Grant) -> bool)

  datatype Verdict = Fine | Conflict | ReadOnly | Unaligned | Refused

  /** The edges in `n->parents`. */
  function Parents(es: Edges, n: NodeId): set<EdgeId>
  {
    set e | e in es && es[e].bs == Some(n)
  }

  /** What all users of `n` need together, and what all of them share. */
  ghost function Cumulative(es: Edges, n: NodeId): Grant
  {
    Grant(set p | p in ALL && Needed(es, n, p), set p | p in ALL && SharedByAll(es, n, p))
  }

  ghost predicate Needed(es: Edges, n: NodeId, p: Perm)
  {
    exists e :: e in Parents(es, n) && p in es[e].grant.perm
  }

  ghost predicate SharedByAll(es: Edges, n: NodeId, p: Perm)
  {
    forall e :: e in Parents(es, n) ==> p in es[e].grant.shared
  }

  /** `bdrv_a_allow_b`. */
  predicate AllowsB(a: Edge, b: Edge)
  {
    b.grant.perm * a.grant.shared == b.grant.perm
  }

  /** What a user of `n` needs, every other user shares. */
  ghost predicate Compatible(es: Edges, n: NodeId)
  {
    forall a, b :: a in Parents(es, n) && b in Parents(es, n) && a != b ==> es[b].grant.perm <= es[a].grant.shared
  }

  lemma AllowsIff(a: Edge, b: Edge)
    ensures AllowsB(a, b) <==> b.grant.perm <= a.grant.shared
  {
    if AllowsB(a, b) {
      forall p | p in b.grant.perm ensures p in a.grant.shared { assert p in b.grant.perm * a.grant.shared; }
    }
  }

  /** Some user writes to `n`, be it only what is there already. */
  ghost predicate Written(es: Edges, n: NodeId)
  {
    Needed(es, n, Write) || Needed(es, n, WriteUnchanged)
  }

  /** A node that is read-only has no writers. */
  ghost predicate WriterAllowed(w: World, es: Edges, n: NodeId)
  {
    Written(es, n) ==> w.info(n).writable
  }

  /** A node whose size is not aligned may grow if it is written to. */
  ghost predicate SizeAllowed(w: World, es: Edges, n: NodeId)
  {
    Written(es, n) && !w.info(n).sizeAligned ==> Needed(es, n, Resize)
  }

  /** The driver of `n` agrees to what its users need and share. */
  ghost predicate DriverAccepts(w: World, es: Edges, n: NodeId)
  {
    w.info(n).hasDriver ==> w.checkPerm(n, Cumulative(es, n))
  }

  /** `bdrv_child_perm`. */
  function ChildGrant(w: World, n: NodeId, role: Role, child: NodeId, users: Grant): Grant
  {
    var g := w.childPerm(n, role, users);
    if w.info(child).forceShare then g.(shared := ALL) else g
  }

  predicate Recomputes(w: World, n: NodeId)
  {
    w.info(n).hasDriver && w.info(n).hasChildPerm
  }

  /** The checks of `bdrv_node_refresh_perm`, in their order. */
  function NodeVerdict(w: World, n: NodeId, users: Grant): Verdict
  {
    var writes := Write in users.perm || WriteUnchanged in users.perm;
    if writes && !w.info(n).writable then ReadOnly
    else if writes && Resize !in users.perm && !w.info(n).sizeAligned then Unaligned
    else if w.info(n).hasDriver && !w.checkPerm(n, users) then Refused
    else Fine
  }

  /** What each verdict of `bdrv_node_refresh_perm` means for the users of the node. */
  ghost predicate CheckMeans(w: World, es: Edges, n: NodeId, v: Verdict)
  {
    match v
    case Conflict => false
    case ReadOnly => !WriterAllowed(w, es, n)
    case Unaligned => WriterAllowed(w, es, n) && !SizeAllowed(w, es, n)
    case Refused => WriterAllowed(w, es, n) && SizeAllowed(w, es, n) && !DriverAccepts(w, es, n)
    case Fine => WriterAllowed(w, es, n) && SizeAllowed(w, es, n) && DriverAccepts(w, es, n)
  }

  lemma CheckIff(w: World, es: Edges, n: NodeId)
    ensures CheckMeans(w, es, n, NodeVerdict(w, n, Cumulative(es, n)))
  {
    var users := Cumulative(es, n);
    forall p: Perm ensures p in users.perm <==> Needed(es, n, p) { AllPerms(p); }
  }

  /** One iteration of the refresh finds a conflict exactly if the users do not get along, and
      otherwise exactly the first check that fails. */
  lemma VerdictIff(w: World, es: Edges, n: NodeId)
    ensures var v := RefreshNode(w, es, n).0;
            if v == Conflict then !Compatible(es, n) else Compatible(es, n) && CheckMeans(w, es, n, v)
  {
    CheckIff(w, es, n);
  }

  /** The loop over the children in `bdrv_node_refresh_perm`. */
  ghost function SetChildren(w: World, es: Edges, n: NodeId): (es': Edges)
  {
    if Recomputes(w, n) then
      map e | e in es ::
        if e in ChildEdges(es, n)
        then es[e].(grant := ChildGrant(w, n, es[e].role, es[e].bs.value, Cumulative(es, n)))
        else es[e]
    else es
  }

  /** One iteration of `bdrv_do_refresh_perms`. */
  ghost function RefreshNode(w: World, es: Edges, n: NodeId): (Verdict, Edges)
  {
    if !Compatible(es, n) then (Conflict, es)
    else
      var v := NodeVerdict(w, n, Cumulative(es, n));
      if v != Fine then (v, es) else (Fine, SetChildren(w, es, n))
  }

  /** `bdrv_do_refresh_perms`: the verdict and the edges as they are when it returns. */
  ghost function RefreshList(w: World, es: Edges, list: seq<NodeId>): (Verdict, Edges)
  {
    if list == [] then (Fine, es)
    else
      var (v, es') := RefreshNode(w, es, list[0]);
      if v != Fine then (v, es') else RefreshList(w, es', list[1..])
  }

  // ---------------------------------------------------------------------------
  // The loops that only read the graph
  // ---------------------------------------------------------------------------

  /** `bdrv_get_cumulative_perm`. */
  method GetCumulativePerm(es: Edges, n: NodeId) returns (users: Grant)
    ensures users == Cumulative(es, n)
  {
    users := Grant({}, ALL);
    var todo := Parents(es, n);
    while todo != {}
      invariant todo <= Parents(es, n)
      invariant forall p :: p in users.perm <==> exists e :: e in Parents(es, n) - todo && p in es[e].grant.perm
      invariant forall p :: p in users.shared <==>
                            p in ALL && forall e :: e in Parents(es, n) - todo ==> p in es[e].grant.shared
      decreases todo
    {
      var c :| c in todo;
      todo := todo - {c};
      users := Grant(users.perm + es[c].grant.perm, users.shared * es[c].grant.shared);
    }
    assert Parents(es, n) - todo == Parents(es, n);
    forall p: Perm
      ensures p in ALL && (p in users.perm <==> Needed(es, n, p)) && (p in users.shared <==> SharedByAll(es, n, p))
    {
      AllPerms(p);
    }
    assert users.perm == Cumulative(es, n).perm && users.shared == Cumulative(es, n).shared;
  }

  /** `bdrv_parent_perms_conflict`: every ordered pair of users is looked at. */
  method ParentPermsConflict(es: Edges, n: NodeId) returns (conflict: bool)
    ensures conflict <==> !Compatible(es, n)
  {
    var outer := Parents(es, n);
    while outer != {}
      invariant outer <= Parents(es, n)
      invariant forall a, b :: a in Parents(es, n) - outer && b in Parents(es, n) && a != b ==>
                               es[b].grant.perm <= es[a].grant.shared
      decreases outer
    {
      var a :| a in outer;
      outer := outer - {a};
      var inner := Parents(es, n);
      while inner != {}
        invariant inner <= Parents(es, n)
        invariant forall b :: b in Parents(es, n) - inner && a != b ==> es[b].grant.perm <= es[a].grant.shared
        decreases inner
      {
        var b :| b in inner;
        inner := inner - {b};
        AllowsIff(es[a], es[b]);
        if a != b && !AllowsB(es[a], es[b]) {
          return true;
        }
      }
    }
    return false;
  }

  // ---------------------------------------------------------------------------
  // What a successful refresh establishes
  // ---------------------------------------------------------------------------

  /** `es'` differs from `es` at most in the grants of edges owned by nodes in `owners`. */
  ghost predicate OnlyGrants(es: Edges, es': Edges, owners: set<NodeId>)
  {
    && es'.Keys == es.Keys
    && forall e :: e in es ==>
         && es'[e] == es[e].(grant := es'[e].grant)
         && (es'[e] == es[e] || (es[e].owner.Some? && es[e].owner.value in owners))
  }

  /** The child edges of `n` carry exactly what its driver derives from its users. */
  ghost predicate AtFixedPoint(w: World, es: Edges, n: NodeId)
  {
    w.info(n).hasDriver && w.info(n).hasChildPerm ==>
      forall e :: e in ChildEdges(es, n) ==>
        && es[e].grant.perm == w.childPerm(n, es[e].role, Cumulative(es, n)).perm
        && es[e].grant.shared == if w.info(es[e].bs.value).forceShare then ALL
                                 else w.childPerm(n, es[e].role, Cumulative(es, n)).shared
  }

  lemma {:induction false} RefreshOnlyGrants(w: World, es: Edges, list: seq<NodeId>)
    ensures OnlyGrants(es, RefreshList(w, es, list).1, Elems(list))
  {
    if list != [] {
      var (v, es1) := RefreshNode(w, es, list[0]);
      assert OnlyGrants(es, es1, {list[0]});
      if v == Fine {
        RefreshOnlyGrants(w, es1, list[1..]);
        assert Elems(list) == {list[0]} + Elems(list[1..]);
      }
    }
  }

  lemma SameUsers(es: Edges, es': Edges, n: NodeId)
    requires forall e :: e in es && es[e].bs == Some(n) ==> e in es' && es'[e] == es[e]
    requires forall e :: e in es' && es'[e].bs == Some(n) ==> e in es && es[e].bs == Some(n)
    ensures Parents(es, n) == Parents(es', n) && Cumulative(es, n) == Cumulative(es', n)
    ensures Compatible(es, n) <==> Compatible(es', n)
    ensures forall p :: Needed(es, n, p) <==> Needed(es', n, p)
  {
    assert Parents(es, n) == Parents(es', n);
    assert forall e :: e in Parents(es, n) ==> es'[e] == es[e];
    assert Cumulative(es, n).perm == Cumulative(es', n).perm;
    assert Cumulative(es, n).shared == Cumulative(es', n).shared;
  }

  /** Refreshing other nodes leaves the users and the children of `n` alone. */
  lemma OthersLeaveNode(w: World, es: Edges, es': Edges, owners: set<NodeId>, n: NodeId)
    requires OnlyGrants(es, es', owners) && n !in owners
    requires forall x :: x in owners ==> !Arrow(es, x, n)
    ensures Cumulative(es', n) == Cumulative(es, n) && Compatible(es', n) == Compatible(es, n)
    ensures ChildEdges(es', n) == ChildEdges(es, n) && forall p :: Needed(es', n, p) == Needed(es, n, p)
    ensures AtFixedPoint(w, es', n) == AtFixedPoint(w, es, n) && WriterAllowed(w, es', n) == WriterAllowed(w, es, n)
  {
    hide AtFixedPoint;
    hide Cumulative;
    hide Compatible;
    hide Needed;
    forall e | e in es && es[e].bs == Some(n) ensures es'[e] == es[e] {
      if es[e].owner.Some? { assert Links(es, e, es[e].owner.value, n); }
    }
    SameUsers(es, es', n);
    assert ChildEdges(es', n) == ChildEdges(es, n);
    SameFixedPoint(w, es, es', n);
  }

  lemma SameFixedPoint(w: World, es: Edges, es': Edges, n: NodeId)
    requires Cumulative(es', n) == Cumulative(es, n) && ChildEdges(es', n) == ChildEdges(es, n)
    requires forall e :: e in ChildEdges(es, n) ==> es'[e] == es[e]
    ensures AtFixedPoint(w, es', n) == AtFixedPoint(w, es, n)
  {
    hide Cumulative;
  }

  lemma RefreshNodeEstablishes(w: World, es: Edges, n: NodeId)
    requires RefreshNode(w, es, n).0 == Fine && !Arrow(es, n, n)
    ensures var es' := RefreshNode(w, es, n).1;
            Compatible(es', n) && AtFixedPoint(w, es', n) && WriterAllowed(w, es', n) && OnlyGrants(es, es', {n})
  {
    var es' := RefreshNode(w, es, n).1;
    VerdictIff(w, es, n);
    forall e | e in es && es[e].bs == Some(n) ensures es'[e] == es[e] {
      assert !Links(es, e, n, n);
    }
    SameUsers(es, es', n);
    assert ChildEdges(es', n) == ChildEdges(es, n);
  }

  /** What is left of `Sorted` for the tail of a list. */
  ghost predicate Ordered(es: Edges, list: seq<NodeId>)
  {
    && (forall i, j :: 0 <= i < j < |list| ==> list[i] != list[j])
    && (forall i, j :: 0 <= i < |list| && 0 <= j < |list| && Arrow(es, list[i], list[j]) ==> i < j)
  }

  lemma SameArrows(es: Edges, es': Edges, owners: set<NodeId>)
    requires OnlyGrants(es, es', owners)
    ensures forall x, y :: Arrow(es', x, y) <==> Arrow(es, x, y)
  {
    forall x, y ensures Arrow(es', x, y) <==> Arrow(es, x, y) {
      if Arrow(es', x, y) { var e :| e in es' && Links(es', e, x, y); assert Links(es, e, x, y); }
      if Arrow(es, x, y) { var e :| e in es && Links(es, e, x, y); assert Links(es', e, x, y); }
    }
  }

  lemma OrderedTail(es: Edges, es': Edges, list: seq<NodeId>)
    requires list != [] && Ordered(es, list) && OnlyGrants(es, es', {list[0]})
    ensures list[0] !in list[1..] && !Arrow(es, list[0], list[0]) && Ordered(es', list[1..])
    ensures forall x :: x in list[1..] ==> !Arrow(es', x, list[0])
  {
    SameArrows(es, es', {list[0]});
    var tail := list[1..];
    forall x | x in tail ensures !Arrow(es', x, list[0]) && x != list[0] {
      var i :| 0 <= i < |tail| && tail[i] == x;
      assert list[i + 1] == x;
    }
    forall i, j | 0 <= i < |tail| && 0 <= j < |tail| && Arrow(es', tail[i], tail[j]) ensures i < j {
      assert Arrow(es, list[i + 1], list[j + 1]);
    }
  }

  /** If the refresh of a topologically sorted list succeeds, then in the final graph every
      listed node has compatible users and its children carry what its driver derives from
      the final permissions of its users. */
  lemma {:induction false} RefreshEstablishes(w: World, es: Edges, list: seq<NodeId>, n: NodeId)
    requires Ordered(es, list) && RefreshList(w, es, list).0 == Fine && n in list
    ensures var es' := RefreshList(w, es, list).1;
            Compatible(es', n) && AtFixedPoint(w, es', n) && WriterAllowed(w, es', n)
    decreases |list|
  {
    var es1 := RefreshNode(w, es, list[0]).1;
    RefreshOnlyGrants(w, es, [list[0]]);
    assert RefreshList(w, es, [list[0]]) == (Fine, es1);
    assert Elems([list[0]]) == {list[0]};
    OrderedTail(es, es1, list);
    if n == list[0] {
      RefreshNodeEstablishes(w, es, n);
      RefreshOnlyGrants(w, es1, list[1..]);
      OthersLeaveNode(w, es1, RefreshList(w, es1, list[1..]).1, Elems(list[1..]), n);
    } else {
      RefreshEstablishes(w, es1, list[1..], n);
    }
  }

  /** No edge into a node outside the list is touched. */
  lemma RefreshStaysInside(w: World, es: Edges, list: seq<NodeId>, e: EdgeId)
    requires Sorted(es, list) && e in es && es[e].bs.Some? && es[e].bs.value !in list
    ensures e in RefreshList(w, es, list).1 && RefreshList(w, es, list).1[e] == es[e]
  {
    hide RefreshList;
    RefreshOnlyGrants(w, es, list);
    if es[e].owner.Some? {
      assert Links(es, e, es[e].owner.value, es[e].bs.value);
    }
  }

  // ---------------------------------------------------------------------------
  // The invariant over whole histories
  // ---------------------------------------------------------------------------

  /** Drivers pass looser permissions on when their users get looser. */
  ghost predicate Monotone(w: World)
  {
    forall n, role, a, b :: Looser(a, b) ==> Looser(w.childPerm(n, role, a), w.childPerm(n, role, b))
  }

  /** All drivers use the default permissions. */
  ghost predicate DefaultDrivers(w: World, flags: NodeId -> NodeFlags)
  {
    forall n, role, g :: w.childPerm(n, role, g) == DefaultPerms(flags(n), role, g)
  }

  /** Drivers that use the default permissions are monotone. */
  lemma DefaultDriversMonotone(w: World, flags: NodeId -> NodeFlags)
    requires DefaultDrivers(w, flags)
    ensures Monotone(w)
  {
    forall n, role, a, b | Looser(a, b) ensures Looser(w.childPerm(n, role, a), w.childPerm(n, role, b)) {
      DefaultPermsMonotone(flags(n), role, a, b);
    }
  }

  /** The child edges of `n` carry at least what its driver derives from its users. */
  ghost predicate Covered(w: World, es: Edges, n: NodeId)
  {
    Recomputes(w, n) ==>
      forall e :: e in ChildEdges(es, n) ==>
        Looser(ChildGrant(w, n, es[e].role, es[e].bs.value, Cumulative(es, n)), es[e].grant)
  }

  /** Nobody is denied what it holds, nobody holds less than its own users need, and nobody may
      write to a read-only node. */
  ghost predicate PermInv(w: World, es: Edges)
  {
    forall n: NodeId {:trigger InOrder(w, es, n)} :: InOrder(w, es, n)
  }

  ghost predicate InOrder(w: World, es: Edges, n: NodeId)
  {
    Compatible(es, n) && Covered(w, es, n) && WriterAllowed(w, es, n)
  }

  /** `es` came from `base` by removing or detaching edges and loosening grants. */
  ghost predicate Loosened(es: Edges, base: Edges)
  {
    forall e :: e in es && es[e].bs.Some? ==>
      e in base && base[e] == es[e].(grant := base[e].grant) && Looser(es[e].grant, base[e].grant)
  }

  lemma LoosenedUsers(es: Edges, base: Edges, n: NodeId)
    requires forall e :: e in Parents(es, n) ==> e in Parents(base, n) && Looser(es[e].grant, base[e].grant)
    ensures Looser(Cumulative(es, n), Cumulative(base, n))
    ensures forall p :: Needed(es, n, p) ==> Needed(base, n, p)
    ensures Compatible(base, n) ==> Compatible(es, n)
  {
    forall p | p in Cumulative(es, n).perm ensures p in Cumulative(base, n).perm {
      var e :| e in Parents(es, n) && p in es[e].grant.perm;
      assert e in Parents(base, n);
    }
    forall p | p in Cumulative(base, n).shared ensures p in Cumulative(es, n).shared {
      assert SharedByAll(base, n, p);
    }
    if Compatible(base, n) {
      forall a, b | a in Parents(es, n) && b in Parents(es, n) && a != b
        ensures es[b].grant.perm <= es[a].grant.shared
      {
        assert base[b].grant.perm <= base[a].grant.shared;
        assert forall p :: p in base[b].grant.perm ==> p in base[b].grant.perm * base[a].grant.shared;
      }
    }
  }

  lemma GrantMonotone(w: World, n: NodeId, role: Role, child: NodeId, a: Grant, b: Grant)
    requires Monotone(w) && Looser(a, b)
    ensures Looser(ChildGrant(w, n, role, child, a), ChildGrant(w, n, role, child, b))
  {}

  lemma LooserTransitive(a: Grant, b: Grant, c: Grant)
    requires Looser(a, b) && Looser(b, c)
    ensures Looser(a, c)
  {}

  /** Removing edges and loosening grants keeps the invariant, without any refresh, as long
      as the grants of the edges that stay are not touched. */
  lemma RemovalKeepsInv(w: World, es: Edges, base: Edges)
    requires Monotone(w) && PermInv(w, base)
    requires forall e :: e in es && es[e].bs.Some? ==> e in base && base[e] == es[e]
    ensures PermInv(w, es)
  {
    forall n: NodeId ensures InOrder(w, es, n) {
      assert InOrder(w, base, n);
      LoosenedUsers(es, base, n);
      CoveredAfter(w, es, base, n);
    }
  }

  lemma GrantStillCovers(w: World, n: NodeId, role: Role, child: NodeId, users: Grant, users': Grant, g: Grant)
    requires Monotone(w) && Looser(users', users) && Looser(ChildGrant(w, n, role, child, users), g)
    ensures Looser(ChildGrant(w, n, role, child, users'), g)
  {
    GrantMonotone(w, n, role, child, users', users);
    LooserTransitive(ChildGrant(w, n, role, child, users'), ChildGrant(w, n, role, child, users), g);
  }

  lemma CoveredAfter(w: World, es: Edges, base: Edges, n: NodeId)
    requires Monotone(w) && Covered(w, base, n) && Looser(Cumulative(es, n), Cumulative(base, n))
    requires forall e :: e in ChildEdges(es, n) ==> e in base && base[e] == es[e]
    ensures Covered(w, es, n)
  {
    forall e | e in ChildEdges(es, n) && Recomputes(w, n)
      ensures Looser(ChildGrant(w, n, es[e].role, es[e].bs.value, Cumulative(es, n)), es[e].grant)
    {
      assert e in ChildEdges(base, n);
      GrantStillCovers(w, n, es[e].role, es[e].bs.value, Cumulative(base, n), Cumulative(es, n), es[e].grant);
    }
  }

  /** An edit is local to `list` if the users and children of every other node only went away. */
  ghost predicate LocalEdit(es: Edges, base: Edges, list: seq<NodeId>)
  {
    forall e :: e in es && es[e].bs.Some? ==>
      || (e in base && base[e] == es[e])
      || (es[e].bs.value in list && (es[e].owner.Some? ==> es[e].owner.value in list))
  }

  /** A successful refresh after a local edit restores the invariant of the whole graph. */
  lemma RefreshRestoresInv(w: World, base: Edges, es: Edges, list: seq<NodeId>)
    requires Monotone(w) && PermInv(w, base) && Sorted(es, list) && LocalEdit(es, base, list)
    requires RefreshList(w, es, list).0 == Fine
    ensures PermInv(w, RefreshList(w, es, list).1)
  {
    var es' := RefreshList(w, es, list).1;
    RefreshOnlyGrants(w, es, list);
    forall n: NodeId ensures InOrder(w, es', n) {
      if n in list {
        RefreshEstablishes(w, es, list, n);
      } else {
        assert InOrder(w, base, n);
        UnlistedKept(w, base, es, list, es', n);
      }
    }
  }

  lemma UnlistedKept(w: World, base: Edges, es: Edges, list: seq<NodeId>, es': Edges, n: NodeId)
    requires Monotone(w) && InOrder(w, base, n)
    requires Sorted(es, list) && LocalEdit(es, base, list) && n !in list
    requires OnlyGrants(es, es', Elems(list))
    ensures InOrder(w, es', n)
  {
    forall e | e in Parents(es', n) ensures e in Parents(base, n) && es'[e] == base[e] {
      if es[e].owner.Some? { assert Links(es, e, es[e].owner.value, n); }
    }
    LoosenedUsers(es', base, n);
    CoveredAfter(w, es', base, n);
  }

  // ---------------------------------------------------------------------------
  // Taking a user away only loosens
  // ---------------------------------------------------------------------------

  lemma ChildrenLoosened(w: World, base: Edges, es: Edges, n: NodeId)
    requires Monotone(w) && PermInv(w, base) && Loosened(es, base)
    ensures Loosened(SetChildren(w, es, n), base)
  {
    assert InOrder(w, base, n);
    LoosenedUsers(es, base, n);
    var users, users' := Cumulative(base, n), Cumulative(es, n);
    if Recomputes(w, n) {
      forall e | e in ChildEdges(es, n)
        ensures Looser(ChildGrant(w, n, es[e].role, es[e].bs.value, users'), base[e].grant)
      {
        GrantMonotone(w, n, es[e].role, es[e].bs.value, users', users);
        LooserTransitive(ChildGrant(w, n, es[e].role, es[e].bs.value, users'),
                         ChildGrant(w, n, es[e].role, es[e].bs.value, users), base[e].grant);
      }
    }
  }

  lemma NodeLoosened(w: World, base: Edges, es: Edges, n: NodeId)
    requires Monotone(w) && PermInv(w, base) && Loosened(es, base)
    ensures RefreshNode(w, es, n).0 in {Fine, Unaligned, Refused} && Loosened(RefreshNode(w, es, n).1, base)
  {
    assert InOrder(w, base, n);
    LoosenedUsers(es, base, n);
    ChildrenLoosened(w, base, es, n);
  }

  /** A refresh after taking users away never finds a permission conflict at any depth, nor
      a writer on a read-only node. */
  lemma {:induction false} LooseningNeverConflicts(w: World, base: Edges, es: Edges, list: seq<NodeId>)
    requires Monotone(w) && PermInv(w, base) && Loosened(es, base)
    ensures RefreshList(w, es, list).0 in {Fine, Unaligned, Refused}
    decreases |list|
  {
    if list != [] {
      NodeLoosened(w, base, es, list[0]);
      if RefreshNode(w, es, list[0]).0 == Fine {
        LooseningNeverConflicts(w, base, RefreshNode(w, es, list[0]).1, list[1..]);
      }
    }
  }

  // ---------------------------------------------------------------------------
  // Exactly when a refresh succeeds
  // ---------------------------------------------------------------------------

  /** The permissions a list of nodes would get if no check were made. */
  ghost function Recompute(w: World, es: Edges, list: seq<NodeId>): Edges
  {
    if list == [] then es else Recompute(w, SetChildren(w, es, list[0]), list[1..])
  }

  /** Node `n` passes every check when its users are those of `es`. */
  ghost predicate Acceptable(w: World, es: Edges, n: NodeId)
  {
    Compatible(es, n) && WriterAllowed(w, es, n) && SizeAllowed(w, es, n) && DriverAccepts(w, es, n)
  }

  lemma {:induction false} RecomputeOnlyGrants(w: World, es: Edges, list: seq<NodeId>)
    ensures OnlyGrants(es, Recompute(w, es, list), Elems(list))
  {
    if list != [] {
      var es1 := SetChildren(w, es, list[0]);
      assert OnlyGrants(es, es1, {list[0]});
      RecomputeOnlyGrants(w, es1, list[1..]);
      assert Elems(list) == {list[0]} + Elems(list[1..]);
    }
  }

  lemma HeadKeepsUsers(w: World, es: Edges, list: seq<NodeId>)
    requires list != [] && Ordered(es, list)
    ensures var es1 := SetChildren(w, es, list[0]);
            Ordered(es1, list[1..]) && Acceptable(w, Recompute(w, es, list), list[0]) == Acceptable(w, es, list[0])
  {
    var n, es1 := list[0], SetChildren(w, es, list[0]);
    OrderedTail(es, es1, list);
    forall e | e in es && es[e].bs == Some(n) ensures es1[e] == es[e] {
      assert !Links(es, e, n, n);
    }
    SameUsers(es, es1, n);
    RecomputeOnlyGrants(w, es1, list[1..]);
    OthersLeaveNode(w, es1, Recompute(w, es1, list[1..]), Elems(list[1..]), n);
  }

  /** The refresh of a sorted list succeeds exactly if every listed node is acceptable in the
      graph that recomputing all permissions leads to, and then it leads to that graph. */
  lemma {:induction false} RefreshSucceedsIff(w: World, es: Edges, list: seq<NodeId>)
    requires Ordered(es, list)
    ensures RefreshList(w, es, list).0 == Fine <==> forall n :: n in list ==> Acceptable(w, Recompute(w, es, list), n)
    ensures RefreshList(w, es, list).0 == Fine ==> RefreshList(w, es, list).1 == Recompute(w, es, list)
    decreases |list|
  {
    if list != [] {
      HeadKeepsUsers(w, es, list);
      VerdictIff(w, es, list[0]);
      RefreshSucceedsIff(w, SetChildren(w, es, list[0]), list[1..]);
      assert forall n :: n in list <==> n == list[0] || n in list[1..];
    }
  }

  /** Recomputing all permissions leaves a writer that may not resize an image of unaligned size,
      or a driver that refuses. */
  ghost predicate Misfits(w: World, es: Edges, list: seq<NodeId>)
  {
    exists n :: n in list &&
      (!SizeAllowed(w, Recompute(w, es, list), n) || !DriverAccepts(w, Recompute(w, es, list), n))
  }

  /** After taking users away, the refresh fails exactly if that leaves a writer that may not
      resize an image of unaligned size, or a driver that refuses. */
  lemma LooseningFailsIff(w: World, base: Edges, es: Edges, list: seq<NodeId>)
    requires Monotone(w) && PermInv(w, base) && Loosened(es, base) && Ordered(es, list)
    ensures RefreshList(w, es, list).0 != Fine <==> Misfits(w, es, list)
  {
    RefreshSucceedsIff(w, es, list);
    RecomputeLoosened(w, base, es, list);
    forall n | n in list
      ensures Acceptable(w, Recompute(w, es, list), n) <==>
              SizeAllowed(w, Recompute(w, es, list), n) && DriverAccepts(w, Recompute(w, es, list), n)
    {
      assert InOrder(w, base, n);
      LoosenedUsers(Recompute(w, es, list), base, n);
    }
  }

  lemma {:induction false} RecomputeLoosened(w: World, base: Edges, es: Edges, list: seq<NodeId>)
    requires Monotone(w) && PermInv(w, base) && Loosened(es, base)
    ensures Loosened(Recompute(w, es, list), base)
    decreases |list|
  {
    if list != [] {
      ChildrenLoosened(w, base, es, list[0]);
      RecomputeLoosened(w, base, SetChildren(w, es, list[0]), list[1..]);
    }
  }

  /** Losing a user can make a refresh fail: the user that goes away was the one that held
      the right to resize, and the size of the image is not a multiple of its alignment. */
  lemma LooseningCanFail() returns (w: World, base: Edges, es: Edges)
    ensures Monotone(w) && PermInv(w, base) && Loosened(es, base)
    ensures RefreshList(w, es, [0]).0 == Unaligned
  {
    w := World(n => NodeInfo(true, false, true, false, false), (n, role, g) => g, (n, g) => true);
    var writer := Edge(None, Some(0), Data, Grant({Write}, ALL), false, false);
    var resizer := Edge(None, Some(0), Data, Grant({Resize}, ALL), false, false);
    base := map[0 := writer, 1 := resizer];
    es := map[0 := writer];
    assert base[0] == writer && base[1] == resizer && es[0] == writer;
    assert 1 in Parents(base, 0) && 0 in Parents(base, 0) && 0 in Parents(es, 0);
    assert Needed(base, 0, Resize) && Needed(base, 0, Write) && Needed(es, 0, Write) && !Needed(es, 0, Resize);
    forall n: NodeId ensures InOrder(w, base, n) {}
    assert !SizeAllowed(w, es, 0);
    VerdictIff(w, es, 0);
    assert Compatible(es, 0);
    assert RefreshList(w, es, [0]).0 == Unaligned;
  }

  // ---------------------------------------------------------------------------
  // What the default permissions mean for a graph
  // ---------------------------------------------------------------------------

  /** Edge `e` belongs to a node whose driver derives permissions for its children. */
  ghost predicate Derived(w: World, es: Edges, e: EdgeId)
  {
    && e in es && es[e].owner.Some? && es[e].bs.Some?
    && w.info(es[e].owner.value).hasDriver && w.info(es[e].owner.value).hasChildPerm
  }

  /** A node that is used as a backing file only is never written to nor resized, whatever the users
      of its overlays do: it may be read-only, and its size does not matter. */
  lemma BackingFileIsOnlyRead(w: World, flags: NodeId -> NodeFlags, es: Edges, n: NodeId)
    requires DefaultDrivers(w, flags)
    requires forall e :: e in Parents(es, n) ==>
               es[e].role == Cow && Derived(w, es, e) && AtFixedPoint(w, es, es[e].owner.value)
    ensures forall p :: p in {Write, WriteUnchanged, Resize} ==> !Needed(es, n, p)
    ensures WriterAllowed(w, es, n) && SizeAllowed(w, es, n)
  {
    forall e | e in Parents(es, n) ensures es[e].grant.perm <= {ConsistentRead} {
      var m := es[e].owner.value;
      DefaultNeeds(flags(m), Cow, Cumulative(es, m));
      assert e in ChildEdges(es, m);
    }
  }

  /** The edges lead from `a` down to `b`, and none of them to a backing file. */
  ghost predicate DataPath(w: World, es: Edges, path: seq<EdgeId>, a: NodeId, b: NodeId)
    decreases |path|
  {
    if path == [] then a == b
    else
      && Derived(w, es, path[0]) && es[path[0]].owner == Some(a) && es[path[0]].role != Cow
      && DataPath(w, es, path[1..], es[path[0]].bs.value, b)
  }

  lemma WritePassedOn(w: World, flags: NodeId -> NodeFlags, es: Edges, e: EdgeId)
    requires DefaultDrivers(w, flags) && Derived(w, es, e) && es[e].role != Cow
    requires Written(es, es[e].owner.value) && InOrder(w, es, es[e].owner.value)
    ensures Written(es, es[e].bs.value)
  {
    var n := es[e].owner.value;
    var users := Cumulative(es, n);
    DefaultNeeds(flags(n), es[e].role, users);
    forall p: Perm ensures p in users.perm <==> Needed(es, n, p) { AllPerms(p); }
    assert e in ChildEdges(es, n) && e in Parents(es, es[e].bs.value);
  }

  /** Who may write to a node may write to everything that holds its data or metadata: in a graph
      whose permissions are in order, none of that is read-only. */
  lemma {:induction false} WritersReachTheData(w: World, flags: NodeId -> NodeFlags, es: Edges, path: seq<EdgeId>,
                                               a: NodeId, b: NodeId)
    requires DefaultDrivers(w, flags) && PermInv(w, es) && Written(es, a) && DataPath(w, es, path, a, b)
    ensures Written(es, b) && w.info(b).writable
    decreases |path|
  {
    if path == [] {
      assert InOrder(w, es, a);
    } else {
      assert InOrder(w, es, a);
      WritePassedOn(w, flags, es, path[0]);
      WritersReachTheData(w, flags, es, path[1..], es[path[0]].bs.value, b);
    }
  }
}
