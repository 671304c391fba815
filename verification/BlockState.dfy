/** The state of the block layer as a value (`qemu/block.c`).

    `Inv` is the invariant that every operation keeps.  The lemmas say what each primitive
    edit, its undo and its commit do to the state and that they keep the invariant, part by
    part: the way back to the start of the transaction, the reference counts, the edges. */
module BlockState {

  import opened Wrappers
  import opened Permissions
  import opened Graph
  import opened GraphSearch
  import opened RefreshPerms
  import opened Transactions
  import opened Inheritance

  /** A snapshot of the block layer and of what the proofs remember about it:
      `outside` are references held by users outside this model, `dying` the nodes inside
      `bdrv_delete`, `start` and `startScheduled` the state in which the open transaction
      began. */
  datatype Snap = Snap(edges: Edges, nextEdge: EdgeId, inherits: Inherits, refcnt: RefCounts,
                       scheduled: multiset<NodeId>, tran: seq<Action>, outside: multiset<NodeId>,
                       dying: set<NodeId>, start: View, startScheduled: multiset<NodeId>)

  ghost function ViewOf(s: Snap): View
  {
    View(s.edges, s.inherits, Net(s.refcnt, s.scheduled))
  }

  /** The way back to the beginning of the transaction is open. */
  ghost predicate ChainInv(s: Snap)
  {
    && UndoAll(ViewOf(s), s.tran) == s.start
    && ChainOk(ViewOf(s), s.tran, s.startScheduled, s.dying)
    && s.startScheduled <= s.scheduled
    && s.refcnt.Keys <= s.inherits.Keys
    && (forall e :: e in s.edges ==> e < s.nextEdge)
  }

  ghost predicate NoDangling(scheduled: multiset<NodeId>, outside: multiset<NodeId>, refcnt: RefCounts)
  {
    forall n :: n in scheduled || n in outside ==> n in refcnt
  }

  /** Reference counts are exact, nobody refers to a freed node, and nobody to a dying one. */
  ghost predicate CountInv(s: Snap)
  {
    && Accounted(s.edges, s.tran, s.scheduled, s.outside, s.refcnt)
    && NoDangling(s.scheduled, s.outside, s.refcnt)
    && (forall n :: n in s.dying && n in s.refcnt ==> s.refcnt[n] == 0)
  }

  ghost predicate StartInv(s: Snap)
  {
    && Acyclic(s.start.edges) && InheritsOk(s.start.inherits)
    && forall e :: e in s.start.edges ==> s.start.edges[e].bs.Some?
  }

  ghost predicate EdgeInv(s: Snap)
  {
    && Acyclic(s.edges) && InheritsOk(s.inherits)
    && forall e :: Removed(e) in s.tran ==> e in s.edges && s.edges[e].bs.None?
  }

  /** Only edges that are about to be freed point nowhere. */
  ghost predicate NoLooseEnds(s: Snap)
  {
    forall e :: e in s.edges && s.edges[e].bs.None? ==> Removed(e) in s.tran
  }

  ghost predicate CoreInv(s: Snap)
  {
    ChainInv(s) && CountInv(s) && StartInv(s) && EdgeInv(s)
  }

  ghost predicate Inv(s: Snap)
  {
    CoreInv(s) && NoLooseEnds(s)
  }

  /** Same transaction, nodes and bookkeeping; edges, counts and the log may differ. */
  ghost predicate SameTransaction(s: Snap, s': Snap)
  {
    && s'.start == s.start && s'.startScheduled == s.startScheduled && s'.scheduled == s.scheduled
    && s'.dying == s.dying && s'.outside == s.outside && s'.refcnt.Keys == s.refcnt.Keys
  }

  /** The operation gave back all outside references and all nodes that it found. */
  ghost predicate SameOutside(s: Snap, s': Snap)
  {
    s'.start == s.start && s'.outside == s.outside && s'.dying == s.dying && s'.refcnt.Keys == s.refcnt.Keys
  }

  lemma FreshName(s: Snap)
    requires Inv(s)
    ensures s.nextEdge !in s.edges
  {}

  lemma RecordAction(s: Snap, s': Snap, a: Action)
    requires ChainInv(s) && SameTransaction(s, s') && s'.tran == s.tran + [a]
    requires Ready(ViewOf(s'), a) && Undo(ViewOf(s'), a) == ViewOf(s)
    requires Alive(ViewOf(s'), s.startScheduled, s.dying)
    requires s'.refcnt.Keys <= s'.inherits.Keys && forall e :: e in s'.edges ==> e < s'.nextEdge
    ensures ChainInv(s')
  {
    Recorded(ViewOf(s), ViewOf(s'), s.tran, a, s.startScheduled, s.dying);
  }

  lemma SameLinksAcyclic(es: Edges, es': Edges)
    requires Acyclic(es)
    requires forall e :: e in es' ==> e in es && es'[e].owner == es[e].owner && es'[e].bs == es[e].bs
    ensures Acyclic(es')
  {
    forall x: NodeId, y: NodeId | Arrow(es', x, y) ensures Arrow(es, x, y) {
      var e :| e in es' && Links(es', e, x, y);
      assert Links(es, e, x, y);
    }
    FewerArrowsAcyclic(es, es');
  }

  // ---------------------------------------------------------------------------
  // Primitive edits
  // ---------------------------------------------------------------------------

  ghost function WithGrant(s: Snap, e: EdgeId, grant: Grant): Snap
    requires e in s.edges
  {
    s.(edges := s.edges[e := s.edges[e].(grant := grant)], tran := s.tran + [SetPerm(e, s.edges[e].grant)])
  }

  lemma WithGrantInv(s: Snap, e: EdgeId, grant: Grant)
    requires Inv(s) && e in s.edges
    ensures Inv(WithGrant(s, e, grant))
  {
    hide ChainInv;
    hide CountInv;
    WithGrantChain(s, e, grant);
    WithGrantCounts(s, e, grant);
    SameLinksAcyclic(s.edges, WithGrant(s, e, grant).edges);
  }

  lemma WithGrantChain(s: Snap, e: EdgeId, grant: Grant)
    requires ChainInv(s) && e in s.edges
    ensures ChainInv(WithGrant(s, e, grant))
  {
    var s', a := WithGrant(s, e, grant), SetPerm(e, s.edges[e].grant);
    assert Undo(ViewOf(s'), a).edges == s.edges;
    RecordAction(s, s', a);
  }

  lemma WithGrantCounts(s: Snap, e: EdgeId, grant: Grant)
    requires CountInv(s) && e in s.edges
    ensures CountInv(WithGrant(s, e, grant))
  {
    var s' := WithGrant(s, e, grant);
    HeldAppend(s.tran, SetPerm(e, s.edges[e].grant));
    forall n | n in s.refcnt ensures AccountedAt(s'.edges, s'.tran, s'.scheduled, s'.outside, s'.refcnt, n) {
      assert AccountedAt(s.edges, s.tran, s.scheduled, s.outside, s.refcnt, n);
      ParentsSameTargets(s.edges, s'.edges, n);
    }
  }

  ghost function Bump(refcnt: RefCounts, n: Option<NodeId>): RefCounts
  {
    if n.Some? && n.value in refcnt then refcnt[n.value := refcnt[n.value] + 1] else refcnt
  }

  /** The state after `bdrv_replace_child_tran`. */
  ghost function WithTarget(s: Snap, e: EdgeId, bs: Option<NodeId>): Snap
    requires e in s.edges
  {
    s.(edges := s.edges[e := s.edges[e].(bs := bs)], refcnt := Bump(s.refcnt, bs),
       tran := s.tran + [Replaced(e, s.edges[e].bs)])
  }

  /** Letting edge `e` point at `bs` closes no cycle. */
  ghost predicate NoCycle(es: Edges, owner: Option<NodeId>, bs: Option<NodeId>)
  {
    owner.Some? && bs.Some? ==> !Reach(es, bs.value, owner.value)
  }

  lemma MoveAcyclic(es: Edges, e: EdgeId, edge: Edge)
    requires Acyclic(es) && NoCycle(es, edge.owner, edge.bs)
    ensures Acyclic(es[e := edge])
  {
    var es' := es[e := edge];
    forall x: NodeId, y: NodeId | Arrow(es', x, y)
      ensures Arrow(es, x, y) || (edge.owner == Some(x) && edge.bs == Some(y))
    {
      var c :| c in es' && Links(es', c, x, y);
      if c != e { assert Links(es, c, x, y); }
    }
    if edge.owner.Some? && edge.bs.Some? {
      NewArrowAcyclic(es, es', edge.owner.value, edge.bs.value);
    } else {
      FewerArrowsAcyclic(es, es');
    }
  }

  lemma WithTargetInv(s: Snap, e: EdgeId, bs: Option<NodeId>)
    requires Inv(s) && e in s.edges && s.edges[e].bs != bs
    requires bs.Some? ==> bs.value in s.refcnt && bs.value !in s.dying && s.edges[e].bs.Some?
    requires NoCycle(s.edges, s.edges[e].owner, bs)
    ensures CoreInv(WithTarget(s, e, bs)) && (bs.Some? ==> Inv(WithTarget(s, e, bs)))
  {
    WithTargetChain(s, e, bs);
    WithTargetCounts(s, e, bs);
    WithTargetEdges(s, e, bs);
  }

  lemma WithTargetChain(s: Snap, e: EdgeId, bs: Option<NodeId>)
    requires ChainInv(s) && e in s.edges && (bs.Some? ==> bs.value in s.refcnt)
    ensures ChainInv(WithTarget(s, e, bs))
  {
    var s', a := WithTarget(s, e, bs), Replaced(e, s.edges[e].bs);
    assert Undo(ViewOf(s'), a).edges == s.edges;
    assert Undo(ViewOf(s'), a).net == ViewOf(s).net;
    RecordAction(s, s', a);
  }

  lemma WithTargetEdges(s: Snap, e: EdgeId, bs: Option<NodeId>)
    requires EdgeInv(s) && e in s.edges && (bs.Some? ==> s.edges[e].bs.Some?)
    requires NoCycle(s.edges, s.edges[e].owner, bs)
    ensures EdgeInv(WithTarget(s, e, bs))
  {
    MoveAcyclic(s.edges, e, s.edges[e].(bs := bs));
  }

  lemma WithTargetCounts(s: Snap, e: EdgeId, bs: Option<NodeId>)
    requires CountInv(s) && e in s.edges
    requires bs.Some? ==> bs.value in s.refcnt && bs.value !in s.dying
    ensures CountInv(WithTarget(s, e, bs))
  {
    var s' := WithTarget(s, e, bs);
    HeldAppend(s.tran, Replaced(e, s.edges[e].bs));
    forall n | n in s.refcnt ensures AccountedAt(s'.edges, s'.tran, s'.scheduled, s'.outside, s'.refcnt, n) {
      assert AccountedAt(s.edges, s.tran, s.scheduled, s.outside, s.refcnt, n);
      ParentsAfterMove(s.edges, e, bs, n);
    }
  }

  /** The state after `bdrv_attach_child_common`. */
  ghost function WithEdge(s: Snap, edge: Edge): Snap
  {
    s.(edges := s.edges[s.nextEdge := edge], nextEdge := s.nextEdge + 1, refcnt := Bump(s.refcnt, edge.bs),
       tran := s.tran + [Attached(s.nextEdge)])
  }

  ghost predicate Attachable(s: Snap, edge: Edge)
  {
    && edge.bs.Some? && edge.bs.value in s.refcnt && edge.bs.value !in s.dying
    && (edge.owner.Some? ==> edge.owner.value in s.refcnt)
  }

  lemma WithEdgeInv(s: Snap, edge: Edge)
    requires Inv(s) && Attachable(s, edge) && NoCycle(s.edges, edge.owner, edge.bs)
    ensures Inv(WithEdge(s, edge))
  {
    WithEdgeChain(s, edge);
    WithEdgeCounts(s, edge);
    MoveAcyclic(s.edges, s.nextEdge, edge);
  }

  lemma WithEdgeChain(s: Snap, edge: Edge)
    requires ChainInv(s) && Attachable(s, edge)
    ensures ChainInv(WithEdge(s, edge))
  {
    var s', a := WithEdge(s, edge), Attached(s.nextEdge);
    assert Undo(ViewOf(s'), a).edges == s.edges;
    assert Undo(ViewOf(s'), a).net == ViewOf(s).net;
    RecordAction(s, s', a);
  }

  lemma WithEdgeCounts(s: Snap, edge: Edge)
    requires ChainInv(s) && CountInv(s) && Attachable(s, edge)
    ensures CountInv(WithEdge(s, edge))
  {
    var s' := WithEdge(s, edge);
    HeldAppend(s.tran, Attached(s.nextEdge));
    forall n | n in s.refcnt ensures AccountedAt(s'.edges, s'.tran, s'.scheduled, s'.outside, s'.refcnt, n) {
      assert AccountedAt(s.edges, s.tran, s.scheduled, s.outside, s.refcnt, n);
      ParentsAfterInsert(s.edges, s.nextEdge, edge, n);
    }
  }

  /** The state after an action that only leaves a record. */
  ghost function Logged(s: Snap, a: Action): Snap
  {
    s.(tran := s.tran + [a])
  }

  lemma LoggedInv(s: Snap, a: Action)
    requires CoreInv(s) && (a.DriverSetPerm? || (a.Removed? && a.e in s.edges && s.edges[a.e].bs.None?))
    ensures CoreInv(Logged(s, a))
    ensures NoLooseEnds(s) ==> NoLooseEnds(Logged(s, a))
  {
    var s' := Logged(s, a);
    RecordAction(s, s', a);
    HeldAppend(s.tran, a);
    forall n | n in s.refcnt ensures AccountedAt(s'.edges, s'.tran, s'.scheduled, s'.outside, s'.refcnt, n) {
      assert AccountedAt(s.edges, s.tran, s.scheduled, s.outside, s.refcnt, n);
    }
  }

  /** The state after `bdrv_remove_child`. */
  ghost function WithoutChild(s: Snap, e: EdgeId): Snap
    requires e in s.edges
  {
    Logged(WithTarget(s, e, None), Removed(e))
  }

  lemma WithoutChildInv(s: Snap, e: EdgeId)
    requires Inv(s) && e in s.edges && s.edges[e].bs.Some?
    ensures Inv(WithoutChild(s, e))
  {
    WithTargetInv(s, e, None);
    LoggedInv(WithTarget(s, e, None), Removed(e));
    WithoutChildEnds(s, e);
  }

  lemma WithoutChildEnds(s: Snap, e: EdgeId)
    requires NoLooseEnds(s) && e in s.edges
    ensures NoLooseEnds(WithoutChild(s, e))
  {
    var tran := WithoutChild(s, e).tran;
    assert tran[|tran| - 1] == Removed(e);
    forall a | a in s.tran ensures a in tran {
      var i :| 0 <= i < |s.tran| && s.tran[i] == a;
      assert tran[i] == a;
    }
  }

  lemma LoggedDriverInv(s: Snap, n: NodeId)
    requires Inv(s)
    ensures Inv(Logged(s, DriverSetPerm(n)))
  {
    LoggedInv(s, DriverSetPerm(n));
  }

  /** The state after `bdrv_set_inherits_from`. */
  ghost function WithInherits(s: Snap, n: NodeId, from: Option<NodeId>): Snap
    requires n in s.inherits
  {
    s.(inherits := s.inherits[n := from], tran := s.tran + [SetInherits(n, s.inherits[n])])
  }

  lemma WithInheritsInv(s: Snap, n: NodeId, from: Option<NodeId>)
    requires Inv(s) && n in s.inherits && InheritsOk(s.inherits[n := from])
    ensures Inv(WithInherits(s, n, from))
  {
    var s', a := WithInherits(s, n, from), SetInherits(n, s.inherits[n]);
    assert Undo(ViewOf(s'), a).inherits == s.inherits;
    RecordAction(s, s', a);
    HeldAppend(s.tran, a);
    forall n | n in s.refcnt ensures AccountedAt(s'.edges, s'.tran, s'.scheduled, s'.outside, s'.refcnt, n) {
      assert AccountedAt(s.edges, s.tran, s.scheduled, s.outside, s.refcnt, n);
    }
  }

  // ---------------------------------------------------------------------------
  // Abort
  // ---------------------------------------------------------------------------

  ghost function Last(s: Snap): Action
    requires s.tran != []
  {
    s.tran[|s.tran| - 1]
  }

  /** The state after the `.abort` callback of the last action. */
  ghost function StepBack(s: Snap): Snap
    requires s.tran != [] && Ready(ViewOf(s), Last(s))
  {
    var s0 := s.(tran := s.tran[..|s.tran| - 1]);
    match Last(s)
    case SetPerm(e, oldGrant) => s0.(edges := s.edges[e := s.edges[e].(grant := oldGrant)])
    case Replaced(e, oldBs) =>
      s0.(edges := s.edges[e := s.edges[e].(bs := oldBs)], refcnt := Drop(s.refcnt, s.edges[e].bs))
    case Attached(e) =>
      s0.(edges := s.edges - {e}, scheduled := s.scheduled + multiset{s.edges[e].bs.value})
    case SetInherits(n, oldFrom) => s0.(inherits := s.inherits[n := oldFrom])
    case Removed(_) | DriverSetPerm(_) => s0
  }

  lemma StepBackChain(s: Snap)
    requires ChainInv(s) && s.tran != []
    ensures ViewOf(StepBack(s)) == Undo(ViewOf(s), Last(s)) && ChainInv(StepBack(s))
  {
    var s' := StepBack(s);
    match Last(s) {
      case Replaced(e, _) => assert ViewOf(s').net == Drop(ViewOf(s).net, s.edges[e].bs);
      case Attached(e) => assert ViewOf(s').net == Drop(ViewOf(s).net, s.edges[e].bs);
      case _ =>
    }
  }

  lemma StepBackCounts(s: Snap)
    requires ChainInv(s) && CountInv(s) && s.tran != []
    ensures CountInv(StepBack(s))
  {
    var s' := StepBack(s);
    StepBackDying(s);
    forall n | n in s.refcnt ensures AccountedAt(s'.edges, s'.tran, s'.scheduled, s'.outside, s'.refcnt, n) {
      assert AccountedAt(s.edges, s.tran, s.scheduled, s.outside, s.refcnt, n);
      StepBackCount(s, n);
    }
  }

  lemma StepBackCount(s: Snap, n: NodeId)
    requires s.tran != [] && Ready(ViewOf(s), Last(s)) && n in s.refcnt
    requires AccountedAt(s.edges, s.tran, s.scheduled, s.outside, s.refcnt, n)
    ensures var s' := StepBack(s); AccountedAt(s'.edges, s'.tran, s'.scheduled, s'.outside, s'.refcnt, n)
  {
    hide Held;
    var s', a := StepBack(s), Last(s);
    assert s.tran == s'.tran + [a];
    HeldAppend(s'.tran, a);
    match a
    case Replaced(e, oldBs) => ParentsAfterMove(s.edges, e, oldBs, n);
    case Attached(e) => ParentsAfterRemove(s.edges, e, n);
    case _ => ParentsSameTargets(s.edges, s'.edges, n);
  }

  lemma MovedNodeCount(s: Snap, e: EdgeId, n: NodeId)
    requires ChainInv(s) && CountInv(s) && s.tran != [] && Last(s).Replaced? && e == Last(s).e
    requires e in s.edges && s.edges[e].bs == Some(n)
    ensures n in s.refcnt && s.refcnt[n] > 1 && n !in s.dying
  {
    hide UndoAll;
    assert n in ViewOf(s).net;
    assert AccountedAt(s.edges, s.tran, s.scheduled, s.outside, s.refcnt, n);
    assert e in Parents(s.edges, n);
    assert |Parents(s.edges, n)| >= 1;
    var v := Undo(ViewOf(s), Last(s));
    assert ChainOk(v, s.tran[..|s.tran| - 1], s.startScheduled, s.dying);
    assert v.net[n] + s.startScheduled[n] >= 1;
  }

  /** Undoing an action never drops the last reference of a node, and never touches a dying one. */
  lemma StepBackDying(s: Snap)
    requires ChainInv(s) && CountInv(s) && s.tran != [] && Ready(ViewOf(s), Last(s))
    ensures var s' := StepBack(s);
            && s'.refcnt.Keys == s.refcnt.Keys
            && (forall n :: n in s'.refcnt && s'.refcnt[n] != s.refcnt[n] ==> s'.refcnt[n] >= 1)
            && (forall n :: n in s.dying && n in s'.refcnt ==> s'.refcnt[n] == 0)
  {
    hide ChainInv;
    hide NoDangling;
    hide Accounted;
    if Last(s).Replaced? && s.edges[Last(s).e].bs.Some? {
      MovedNodeCount(s, Last(s).e, s.edges[Last(s).e].bs.value);
    }
  }

  lemma StepBackInv(s: Snap)
    requires ChainInv(s) && CountInv(s) && s.tran != []
    ensures Ready(ViewOf(s), Last(s)) && ChainInv(StepBack(s)) && CountInv(StepBack(s))
    ensures Last(s).Replaced? && s.edges[Last(s).e].bs.Some? ==>
              s.edges[Last(s).e].bs.value in s.refcnt && s.refcnt[s.edges[Last(s).e].bs.value] > 1
  {
    StepBackChain(s);
    StepBackCounts(s);
    if Last(s).Replaced? && s.edges[Last(s).e].bs.Some? {
      MovedNodeCount(s, Last(s).e, s.edges[Last(s).e].bs.value);
    }
  }

  /** Undoing these actions touches no reference count. */
  ghost predicate LeavesRefs(tran: seq<Action>)
  {
    forall a :: a in tran ==> !a.Attached? && !a.Replaced?
  }

  lemma StepBackFrame(s: Snap)
    requires s.tran != [] && Ready(ViewOf(s), Last(s))
    ensures var s' := StepBack(s);
            && s'.start == s.start && s'.nextEdge == s.nextEdge && s'.outside == s.outside && s'.dying == s.dying
            && s'.tran == s.tran[..|s.tran| - 1]
            && (LeavesRefs(s.tran) ==> LeavesRefs(s'.tran) && s'.scheduled == s.scheduled)
  {}

  /** No transaction is open. */
  ghost predicate Settled(s: Snap)
  {
    Inv(s) && s.tran == [] && s.start == ViewOf(s) && s.startScheduled == s.scheduled
  }

  /** Forget the transaction that has just ended. */
  ghost function Settle(s: Snap): Snap
  {
    s.(start := ViewOf(s), startScheduled := s.scheduled)
  }

  lemma SettledFacts(s: Snap)
    requires Settled(s)
    ensures Inv(s) && s.tran == [] && s.start == ViewOf(s) && s.startScheduled == s.scheduled
    ensures Acyclic(s.edges) && InheritsOk(s.inherits)
  {}

  lemma AbortedInv(s: Snap)
    requires ChainInv(s) && CountInv(s) && StartInv(s) && s.tran == []
    ensures Settled(Settle(s)) && ViewOf(s) == s.start
  {}

  // ---------------------------------------------------------------------------
  // Commit
  // ---------------------------------------------------------------------------

  /** The edges that `bdrv_remove_child_commit` frees. */
  ghost function RemovedBy(tran: seq<Action>): set<EdgeId>
  {
    if tran == [] then {} else RemovedBy(tran[..|tran| - 1]) + FreedBy(tran[|tran| - 1])
  }

  ghost function FreedBy(a: Action): set<EdgeId>
  {
    if a.Removed? then {a.e} else {}
  }

  lemma RemovedAppend(tran: seq<Action>, a: Action)
    ensures RemovedBy(tran + [a]) == RemovedBy(tran) + FreedBy(a)
  {
    assert (tran + [a])[..|tran + [a]| - 1] == tran;
  }

  lemma {:induction false} RemovedByMember(tran: seq<Action>, e: EdgeId)
    ensures e in RemovedBy(tran) <==> Removed(e) in tran
  {
    if tran != [] {
      RemovedByMember(tran[..|tran| - 1], e);
      assert tran == tran[..|tran| - 1] + [tran[|tran| - 1]];
    }
  }

  /** What is left after all `.commit` callbacks. */
  ghost function RunCommits(s: Snap): Snap
  {
    s.(edges := s.edges - RemovedBy(s.tran), scheduled := s.scheduled + Held(s.tran), tran := [])
  }

  /** The state after `tran_commit`. */
  ghost function Committed(s: Snap): Snap
  {
    Settle(RunCommits(s))
  }

  /** The `.commit` callback of one action. */
  ghost function CommitOne(s: Snap, a: Action): Snap
  {
    match a
    case Removed(e) => s.(edges := s.edges - {e})
    case Replaced(_, Some(n)) => s.(scheduled := s.scheduled + multiset{n})
    case _ => s
  }

  lemma NothingLeft(s: Snap)
    requires s.tran == []
    ensures RunCommits(s) == s
  {
    assert s.edges - {} == s.edges;
  }

  lemma CommitLast(s: Snap)
    requires s.tran != []
    ensures RunCommits(CommitOne(s, Last(s)).(tran := s.tran[..|s.tran| - 1])) == RunCommits(s)
  {
    hide RemovedBy;
    hide Held;
    var a, rest := Last(s), s.tran[..|s.tran| - 1];
    assert s.tran == rest + [a];
    RemovedAppend(rest, a);
    HeldAppend(rest, a);
    MapMinus(s.edges, FreedBy(a), RemovedBy(rest));
    assert CommitOne(s, a).edges == s.edges - FreedBy(a);
    assert CommitOne(s, a).scheduled == s.scheduled + HeldBy(a) by {
      assert s.scheduled + multiset{} == s.scheduled;
    }
    SumSwap(s.scheduled, HeldBy(a), Held(rest));
  }

  lemma SumSwap(x: multiset<NodeId>, y: multiset<NodeId>, z: multiset<NodeId>)
    ensures (x + y) + z == x + (z + y)
  {}

  lemma MapMinus(m: Edges, a: set<EdgeId>, b: set<EdgeId>)
    ensures (m - a) - b == m - (b + a) && m - {} == m
  {}

  /** Freeing detached edges changes neither the users of a node nor the arrows. */
  lemma FreeDetached(es: Edges, es': Edges)
    requires Acyclic(es)
    requires forall e :: e in es' ==> e in es && es'[e] == es[e]
    requires forall e :: e in es && es[e].bs.Some? ==> e in es'
    ensures Acyclic(es')
    ensures forall n :: Parents(es', n) == Parents(es, n)
  {
    SameLinksAcyclic(es, es');
  }

  lemma CommittedCounts(s: Snap)
    requires CountInv(s) && ChainInv(s)
    requires forall n :: Parents(Committed(s).edges, n) == Parents(s.edges, n)
    ensures CountInv(Committed(s))
  {
    var s' := Committed(s);
    HeldExists(ViewOf(s), s.tran, s.startScheduled, s.dying);
    forall n | n in s.refcnt ensures AccountedAt(s'.edges, s'.tran, s'.scheduled, s'.outside, s'.refcnt, n) {
      assert AccountedAt(s.edges, s.tran, s.scheduled, s.outside, s.refcnt, n);
    }
  }

  lemma CommittedChain(s: Snap)
    requires ChainInv(s) && Committed(s).edges.Keys <= s.edges.Keys
    ensures ChainInv(Committed(s))
  {
    var s' := Committed(s);
    assert Alive(ViewOf(s'), s'.scheduled, s'.dying);
  }

  lemma CommittedInv(s: Snap)
    requires Inv(s)
    ensures Settled(Committed(s))
  {
    CommittedEnds(s);
    FreeDetached(s.edges, Committed(s).edges);
    CommittedCounts(s);
    CommittedChain(s);
  }

  lemma CommittedEnds(s: Snap)
    requires NoLooseEnds(s) && EdgeInv(s)
    ensures forall e :: e in s.edges && s.edges[e].bs.Some? ==> e in Committed(s).edges
    ensures forall e :: e in Committed(s).edges ==>
              e in s.edges && Committed(s).edges[e] == s.edges[e] && s.edges[e].bs.Some?
  {
    forall e ensures e in RemovedBy(s.tran) <==> Removed(e) in s.tran {
      RemovedByMember(s.tran, e);
    }
  }

  // ---------------------------------------------------------------------------
  // Permission updates
  // ---------------------------------------------------------------------------

  /** Only grants have changed, and the log only got longer by permission updates. */
  ghost predicate OnlyPerms(s: Snap, s': Snap)
  {
    && s' == s.(edges := s'.edges, tran := s'.tran)
    && Held(s'.tran) == Held(s.tran) && RemovedBy(s'.tran) == RemovedBy(s.tran)
    && (LeavesRefs(s.tran) ==> LeavesRefs(s'.tran))
  }

  lemma OnlyPermsAppend(s: Snap, s': Snap, edges: Edges, a: Action)
    requires OnlyPerms(s, s') && (a.SetPerm? || a.DriverSetPerm?)
    ensures OnlyPerms(s, s'.(edges := edges, tran := s'.tran + [a]))
  {
    HeldAppend(s'.tran, a);
    assert (s'.tran + [a])[..|s'.tran + [a]| - 1] == s'.tran;
  }

  lemma LoggedOnlyPerms(s: Snap, n: NodeId)
    ensures OnlyPerms(s, Logged(s, DriverSetPerm(n)))
  {
    OnlyPermsAppend(s, s, s.edges, DriverSetPerm(n));
  }

  lemma OnlyPermsTransitive(s: Snap, s': Snap, s'': Snap)
    requires OnlyPerms(s, s') && OnlyPerms(s', s'')
    ensures OnlyPerms(s, s'')
  {}

  lemma NothingToSet(w: World, es: Edges, n: NodeId)
    requires !Recomputes(w, n)
    ensures SetChildren(w, es, n) == es
  {}

  /** `es` is on the way from `es0` to `SetChildren(w, es0, n)`; the edges in `todo` are missing. */
  ghost predicate PartlySet(w: World, es0: Edges, es: Edges, n: NodeId, todo: set<EdgeId>)
  {
    && es.Keys == es0.Keys
    && forall e :: e in es0 ==>
         es[e] == if e in ChildEdges(es0, n) && e !in todo
                  then es0[e].(grant := ChildGrant(w, n, es0[e].role, es0[e].bs.value, Cumulative(es0, n)))
                  else es0[e]
  }

  // ---------------------------------------------------------------------------
  // References from outside
  // ---------------------------------------------------------------------------

  /** The state after `bdrv_schedule_unref` of a reference that an outside user held. */
  ghost function Scheduled(s: Snap, n: NodeId): Snap
  {
    Settle(s.(scheduled := s.scheduled + multiset{n}, outside := s.outside - multiset{n}))
  }

  lemma SettledWhen(s: Snap)
    requires s.tran == [] && CountInv(s) && Alive(ViewOf(s), s.scheduled, s.dying) && Acyclic(s.edges)
    requires s.refcnt.Keys <= s.inherits.Keys && InheritsOk(s.inherits)
    requires forall e :: e in s.edges ==> e < s.nextEdge && s.edges[e].bs.Some?
    ensures Settled(Settle(s))
  {
    hide Accounted;
  }

  lemma ScheduledInv(s: Snap, n: NodeId)
    requires Settled(s) && n in s.outside
    ensures Settled(Scheduled(s, n))
    ensures Scheduled(s, n).edges == s.edges
    ensures ViewOf(Scheduled(s, n)) == ViewOf(s).(net := Drop(ViewOf(s).net, Some(n)))
  {
    hide CountInv;
    hide UndoAll;
    NoLostNode(s, n);
    var s' := Scheduled(s, n);
    assert ViewOf(s').net == Drop(ViewOf(s).net, Some(n));
    ScheduledCounts(s, n);
    assert Alive(ViewOf(s'), s'.scheduled, s'.dying);
    SettledWhen(s');
  }

  lemma NoLostNode(s: Snap, n: NodeId)
    requires CountInv(s) && n in s.outside
    ensures n in s.refcnt
  {}

  lemma ScheduledCounts(s: Snap, n: NodeId)
    requires CountInv(s) && n in s.outside
    ensures CountInv(Scheduled(s, n))
  {
    var s' := Scheduled(s, n);
    forall m | m in s.refcnt ensures AccountedAt(s'.edges, s'.tran, s'.scheduled, s'.outside, s'.refcnt, m) {
      assert AccountedAt(s.edges, s.tran, s.scheduled, s.outside, s.refcnt, m);
    }
  }

  /** Committing a transaction that has only attached an edge and updated permissions. */
  lemma CommitAttach(s0: Snap, edge: Edge, s: Snap)
    requires s0.tran == [] && OnlyPerms(WithEdge(s0, edge), s)
    ensures Committed(s).edges == s.edges
  {
    var one := [Attached(s0.nextEdge)];
    assert WithEdge(s0, edge).tran == one && one[..|one| - 1] == [];
    assert RemovedBy(one) == {};
    MapMinus(s.edges, {}, {});
  }

  ghost function OptSet(d: Option<EdgeId>): set<EdgeId>
  {
    if d.Some? then {d.value} else {}
  }

  lemma CommittedEdges(s: Snap, d: Option<EdgeId>)
    requires RemovedBy(s.tran) == OptSet(d)
    ensures Committed(s).edges == s.edges - OptSet(d)
  {}

  /** Only `inherits_from` pointers have changed. */
  ghost predicate OnlyInherits(s: Snap, s': Snap)
  {
    && s' == s.(inherits := s'.inherits, tran := s'.tran)
    && Held(s'.tran) == Held(s.tran) && RemovedBy(s'.tran) == RemovedBy(s.tran)
  }

  lemma InheritsDefined(s: Snap, e: EdgeId)
    requires Inv(s) && e in s.edges && s.edges[e].bs.Some?
    ensures s.edges[e].bs.value in s.refcnt && s.edges[e].bs.value in s.inherits
    ensures Acyclic(s.edges) && InheritsOk(s.inherits)
  {
    assert s.edges[e].bs.value in ViewOf(s).net;
  }

  lemma KnownNode(s: Snap, n: NodeId)
    requires Inv(s) && n in s.refcnt
    ensures n in s.inherits && InheritsOk(s.inherits)
  {}

  // ---------------------------------------------------------------------------
  // Nodes come and go
  // ---------------------------------------------------------------------------

  /** Edge `e` is gone; whoever removed it holds its reference now. */
  ghost function Unlinked(s: Snap, e: EdgeId): Snap
    requires e in s.edges && s.edges[e].bs.Some?
  {
    Settle(s.(edges := s.edges - {e}, outside := s.outside + multiset{s.edges[e].bs.value}))
  }

  lemma UnlinkedInv(s: Snap, e: EdgeId)
    requires Settled(s) && e in s.edges
    ensures s.edges[e].bs.Some? && s.edges[e].bs.value in s.refcnt && Settled(Unlinked(s, e))
  {
    assert s.edges[e].bs.value in ViewOf(s).net;
    var s' := Unlinked(s, e);
    SameLinksAcyclic(s.edges, s'.edges);
    UnlinkedCounts(s, e);
    SettledWhen(s');
  }

  lemma UnlinkedCounts(s: Snap, e: EdgeId)
    requires CountInv(s) && e in s.edges && s.edges[e].bs.Some? && s.edges[e].bs.value in s.refcnt
    ensures CountInv(Unlinked(s, e))
  {
    var s' := Unlinked(s, e);
    forall m | m in s.refcnt ensures AccountedAt(s'.edges, s'.tran, s'.scheduled, s'.outside, s'.refcnt, m) {
      assert AccountedAt(s.edges, s.tran, s.scheduled, s.outside, s.refcnt, m);
      ParentsAfterRemove(s.edges, e, m);
    }
  }

  /** The state after the decrement in `bdrv_unref`, called from a scheduled bottom half.  A node
      that loses its last reference is about to be deleted. */
  ghost function Unreferenced(s: Snap, n: NodeId): Snap
    requires n in s.refcnt
  {
    Settle(s.(scheduled := s.scheduled - multiset{n}, refcnt := s.refcnt[n := s.refcnt[n] - 1],
              dying := if s.refcnt[n] == 1 then s.dying + {n} else s.dying))
  }

  lemma UnreferencedInv(s: Snap, n: NodeId)
    requires Settled(s) && n in s.scheduled
    ensures n in s.refcnt && s.refcnt[n] > 0 && Settled(Unreferenced(s, n))
  {
    assert n in s.refcnt;
    UnreferencedCounts(s, n);
    var s' := Unreferenced(s, n);
    assert Alive(ViewOf(s), s.scheduled, s.dying);
    assert forall m :: m in s.refcnt && m !in s.dying ==> ViewOf(s).net[m] + s.scheduled[m] >= 1;
    assert Alive(ViewOf(s'), s'.scheduled, s'.dying);
    SettledWhen(s');
  }

  lemma UnreferencedCounts(s: Snap, n: NodeId)
    requires CountInv(s) && n in s.scheduled && n in s.refcnt
    ensures s.refcnt[n] > 0 && CountInv(Unreferenced(s, n))
  {
    assert AccountedAt(s.edges, s.tran, s.scheduled, s.outside, s.refcnt, n);
    var s' := Unreferenced(s, n);
    forall m | m in s.refcnt ensures AccountedAt(s'.edges, s'.tran, s'.scheduled, s'.outside, s'.refcnt, m) {
      assert AccountedAt(s.edges, s.tran, s.scheduled, s.outside, s.refcnt, m);
    }
  }

  /** The driver's close callback has unfrozen the children of `n`. */
  function Unfrozen(es: Edges, n: NodeId): Edges
  {
    map e | e in es :: if es[e].owner == Some(n) then es[e].(frozen := false) else es[e]
  }

  function ChainSet(chain: seq<EdgeId>): set<EdgeId>
  {
    set e | e in chain
  }

  /** The edges in `chain` are frozen, or thawed. */
  function Refrozen(es: Edges, chain: set<EdgeId>, frozen: bool): Edges
  {
    map e | e in es :: if e in chain then es[e].(frozen := frozen) else es[e]
  }

  lemma RefrozenNone(es: Edges, frozen: bool)
    ensures Refrozen(es, ChainSet([]), frozen) == es
  {}

  lemma RefrozenNext(es: Edges, chain: seq<EdgeId>, i: nat, frozen: bool)
    requires i < |chain| && chain[i] in es
    ensures var es' := Refrozen(es, ChainSet(chain[..i]), frozen);
            && chain[i] in es'
            && Refrozen(es, ChainSet(chain[..i + 1]), frozen) == es'[chain[i] := es'[chain[i]].(frozen := frozen)]
  {
    assert ChainSet(chain[..i + 1]) == ChainSet(chain[..i]) + {chain[i]};
  }

  lemma RefrozenOnly(es: Edges, chain: set<EdgeId>, frozen: bool)
    ensures OnlyFrozen(es, Refrozen(es, chain, frozen))
  {}

  /** Thawing what was frozen leaves no trace. */
  lemma FreezeRoundTrip(es: Edges, chain: set<EdgeId>)
    requires forall e :: e in chain && e in es ==> !es[e].frozen
    ensures Refrozen(Refrozen(es, chain, true), chain, false) == es
  {
    forall e | e in es ensures Refrozen(Refrozen(es, chain, true), chain, false)[e] == es[e] {}
  }

  /** `es'` differs from `es` at most in which edges are frozen. */
  predicate OnlyFrozen(es: Edges, es': Edges)
  {
    es'.Keys == es.Keys && forall e :: e in es ==> es'[e] == es[e].(frozen := es'[e].frozen)
  }

  lemma OnlyFrozenInv(s: Snap, es: Edges)
    requires Settled(s) && OnlyFrozen(s.edges, es)
    ensures Settled(Settle(s.(edges := es)))
  {
    var s' := s.(edges := es);
    SameLinksAcyclic(s.edges, s'.edges);
    OnlyFrozenCounts(s, es);
    assert Alive(ViewOf(s), s.scheduled, s.dying);
    SettledWhen(s');
  }

  lemma OnlyFrozenCounts(s: Snap, es: Edges)
    requires CountInv(s) && OnlyFrozen(s.edges, es)
    ensures CountInv(s.(edges := es))
  {
    var s' := s.(edges := es);
    forall m | m in s.refcnt ensures AccountedAt(s'.edges, s'.tran, s'.scheduled, s'.outside, s'.refcnt, m) {
      assert AccountedAt(s.edges, s.tran, s.scheduled, s.outside, s.refcnt, m);
      ParentsSameTargets(s.edges, s'.edges, m);
    }
  }

  /** Node `n` is freed. */
  ghost function Freed(s: Snap, n: NodeId): Snap
  {
    Settle(s.(refcnt := s.refcnt - {n}, inherits := s.inherits - {n}, dying := s.dying - {n}))
  }

  /** A node without references can be freed once it has no children: nothing points at it. */
  lemma FreedInv(s: Snap, n: NodeId)
    requires Settled(s) && n in s.dying && n in s.refcnt && ChildEdges(s.edges, n) == {}
    ensures Settled(Freed(s, n)) && Parents(s.edges, n) == {}
  {
    assert AccountedAt(s.edges, s.tran, s.scheduled, s.outside, s.refcnt, n);
    var s' := Freed(s, n);
    FreedCounts(s, n);
    assert Alive(ViewOf(s), s.scheduled, s.dying);
    forall e | e in s.edges ensures s.edges[e].owner != Some(n) && s.edges[e].bs != Some(n) {
      assert e !in ChildEdges(s.edges, n) && e !in Parents(s.edges, n);
    }
    FewerPointers(s.inherits, s'.inherits);
    SettledWhen(s');
  }

  lemma FreedCounts(s: Snap, n: NodeId)
    requires CountInv(s) && n in s.dying && n in s.refcnt
    ensures CountInv(Freed(s, n))
  {
    assert AccountedAt(s.edges, s.tran, s.scheduled, s.outside, s.refcnt, n);
    var s' := Freed(s, n);
    forall m | m in s'.refcnt ensures AccountedAt(s'.edges, s'.tran, s'.scheduled, s'.outside, s'.refcnt, m) {
      assert AccountedAt(s.edges, s.tran, s.scheduled, s.outside, s.refcnt, m);
    }
  }

  /** The nodes from which `n` can be reached. */
  ghost function Above(s: Snap, n: NodeId): set<NodeId>
  {
    set m | m in s.refcnt && Reach(s.edges, m, n)
  }

  /** A user outside the block graph holds a reference to `m` or has an edge to it. */
  ghost predicate Rooted(s: Snap, m: NodeId)
  {
    m in s.outside || exists e :: e in s.edges && s.edges[e].owner.None? && s.edges[e].bs == Some(m)
  }

  /** A user outside the graph keeps `n` alive, directly or through other nodes. */
  ghost predicate Survives(s: Snap, n: NodeId)
  {
    exists m :: m in s.refcnt && Rooted(s, m) && Reach(s.edges, m, n)
  }

  /** When all scheduled unrefs have run, every node that still exists is kept alive by a user
      outside the graph: nothing leaks. */
  lemma {:induction false} NothingLeaks(s: Snap, n: NodeId) returns (m: NodeId)
    requires Settled(s) && s.scheduled == multiset{} && s.dying == {} && n in s.refcnt
    ensures m in s.refcnt && Rooted(s, m) && Reach(s.edges, m, n)
    decreases Above(s, n)
  {
    assert Alive(ViewOf(s), s.scheduled, s.dying);
    assert ViewOf(s).net[n] >= 1;
    assert AccountedAt(s.edges, s.tran, s.scheduled, s.outside, s.refcnt, n);
    ReachSelf(s.edges, n);
    m := n;
    if n !in s.outside {
      var e :| e in Parents(s.edges, n);
      if s.edges[e].owner.Some? {
        var p := s.edges[e].owner.value;
        assert p in ViewOf(s).net;
        AboveShrinks(s, e, p, n);
        m := NothingLeaks(s, p);
        ReachTransitive(s.edges, m, p, n);
      }
    }
  }

  lemma AboveShrinks(s: Snap, e: EdgeId, p: NodeId, n: NodeId)
    requires Acyclic(s.edges) && e in s.edges && Links(s.edges, e, p, n) && n in s.refcnt
    ensures Above(s, p) < Above(s, n) && Reach(s.edges, p, n)
  {
    assert Arrow(s.edges, p, n);
    ReachArrow(s.edges, p, n);
    ReachSelf(s.edges, n);
    forall m | m in Above(s, p) ensures m in Above(s, n) { ReachTransitive(s.edges, m, p, n); }
    assert n in Above(s, n) && n !in Above(s, p);
  }

  /** Committing a transaction that has only updated permissions. */
  lemma PermsCommit(s0: Snap, s: Snap)
    requires s0.tran == [] && OnlyPerms(s0, s)
    ensures Committed(s).edges == s.edges && Committed(s).scheduled == s.scheduled
  {
    MapMinus(s.edges, {}, {});
    assert s.scheduled + multiset{} == s.scheduled;
  }

  lemma SameNet(s0: Snap, s: Snap)
    ensures ViewOf(s).net == ViewOf(s0).net && s.scheduled == s0.scheduled ==> s.refcnt == s0.refcnt
  {
    if ViewOf(s).net == ViewOf(s0).net && s.scheduled == s0.scheduled {
      assert s.refcnt.Keys == ViewOf(s0).net.Keys;
      forall n | n in s.refcnt ensures s.refcnt[n] == s0.refcnt[n] {
        assert ViewOf(s).net[n] == ViewOf(s0).net[n];
      }
    }
  }

  lemma InheritsCommit(s0: Snap, s: Snap)
    requires s0.tran == [] && OnlyInherits(s0, s)
    ensures Committed(s) == Settle(s0.(inherits := s.inherits))
  {
    MapMinus(s.edges, {}, {});
    assert s.scheduled + multiset{} == s.scheduled;
  }

  /** `es'` is `es` without the edges in `gone`; only grants differ otherwise. */
  ghost predicate Without(es: Edges, es': Edges, gone: set<EdgeId>)
  {
    && es'.Keys == es.Keys - gone
    && forall e :: e in es' ==> es'[e] == es[e].(grant := es'[e].grant)
  }

  lemma RefreshedWithout(w: World, es: Edges, e: EdgeId, list: seq<NodeId>)
    ensures Without(es, es - {e}, {e}) && Without(es, RefreshList(w, es - {e}, list).1, {e})
  {
    RefreshOnlyGrants(w, es - {e}, list);
  }

  lemma ChildStillThere(es0: Edges, es: Edges, n: NodeId, todo: set<EdgeId>, e: EdgeId)
    requires e in todo && todo <= ChildEdges(es0, n) && Without(es0, es, ChildEdges(es0, n) - todo)
    ensures e in es && es[e].owner == Some(n) && es[e].frozen == es0[e].frozen && es[e].bs == es0[e].bs
  {}

  lemma ChildGone(es0: Edges, es: Edges, es': Edges, n: NodeId, todo: set<EdgeId>, e: EdgeId)
    requires e in todo && todo <= ChildEdges(es0, n) && Without(es0, es, ChildEdges(es0, n) - todo)
    requires Without(es, es', {e})
    ensures Without(es0, es', ChildEdges(es0, n) - (todo - {e}))
    ensures |ChildEdges(es0, n) - (todo - {e})| == |ChildEdges(es0, n) - todo| + 1
  {
    assert ChildEdges(es0, n) - (todo - {e}) == (ChildEdges(es0, n) - todo) + {e};
  }

  lemma DeletedChildren(es: Edges, es': Edges, n: NodeId)
    requires Without(Unfrozen(es, n), es', ChildEdges(es, n))
    requires forall e :: e in es && es[e].owner == Some(n) ==> e in ChildEdges(es, n)
    ensures Without(es, es', ChildEdges(es, n)) && ChildEdges(es', n) == {}
  {}

  lemma WithoutLinks(es0: Edges, es: Edges, gone: set<EdgeId>)
    requires Without(es0, es, gone)
    ensures es.Keys == es0.Keys - gone && forall e :: e in es ==> es[e].owner == es0[e].owner && es[e].bs == es0[e].bs
  {}

  lemma WithoutNothing(es: Edges)
    ensures Without(es, es, {})
  {}

  lemma SettledEdges(s: Snap, n: NodeId)
    requires Settled(s)
    ensures forall e :: e in s.edges ==> s.edges[e].bs.Some?
    ensures forall e :: e in s.edges && s.edges[e].owner == Some(n) ==> e in ChildEdges(s.edges, n)
  {}

  /** Work left for the scheduled bottom halves: an unref, or an edge whose removal will
      schedule one. */
  ghost function Pending(s: Snap): nat
  {
    |s.scheduled| + 2 * |s.edges|
  }

  lemma FewerEdges(es: Edges, es': Edges, gone: set<EdgeId>)
    requires Without(es, es', gone) && gone <= es.Keys
    ensures |es'| == |es| - |gone|
  {
    assert |es.Keys| == |es.Keys - gone| + |gone| by {
      assert es.Keys == (es.Keys - gone) + gone;
    }
    assert |es| == |es.Keys| && |es'| == |es'.Keys|;
  }

  lemma AllRooted(s: Snap)
    requires Settled(s) && s.scheduled == multiset{} && s.dying == {}
    ensures forall n :: n in s.refcnt ==> s.refcnt[n] == |Parents(s.edges, n)| + s.outside[n]
    ensures forall n :: n in s.refcnt ==> Survives(s, n)
  {
    forall n | n in s.refcnt
      ensures s.refcnt[n] == |Parents(s.edges, n)| + s.outside[n] && Survives(s, n)
    {
      assert AccountedAt(s.edges, s.tran, s.scheduled, s.outside, s.refcnt, n);
      var m := NothingLeaks(s, n);
    }
  }

  // ---------------------------------------------------------------------------
  // What is left when all scheduled unrefs have run
  // ---------------------------------------------------------------------------

  /** The edges whose owner is not one of `nodes`. */
  ghost function Orphans(es: Edges, nodes: set<NodeId>): set<EdgeId>
  {
    set e | e in es && es[e].owner.Some? && es[e].owner.value !in nodes
  }

  /** `s` came from `s0` by deleting nodes that do not survive, together with their edges. */
  ghost predicate Reaped(s0: Snap, s: Snap)
  {
    && s.refcnt.Keys <= s0.refcnt.Keys && s.outside == s0.outside
    && Without(s0.edges, s.edges, Orphans(s0.edges, s.refcnt.Keys))
    && forall n :: n in s0.refcnt && Survives(s0, n) ==> n in s.refcnt
  }

  lemma NothingReaped(s: Snap)
    requires Settled(s)
    ensures Reaped(s, s)
  {
    forall e | e in s.edges ensures e !in Orphans(s.edges, s.refcnt.Keys) {
      if s.edges[e].owner.Some? { assert s.edges[e].owner.value in ViewOf(s).net; }
    }
  }

  /** A node whose last reference is a scheduled one has no users. */
  lemma LastReference(s: Snap, n: NodeId)
    requires Settled(s) && n in s.scheduled && n in s.refcnt && s.refcnt[n] == 1
    ensures Parents(s.edges, n) == {} && n !in s.outside
  {
    assert AccountedAt(s.edges, s.tran, s.scheduled, s.outside, s.refcnt, n);
  }

  /** A node that survives still has a user, as long as only others have been deleted. */
  lemma SurvivorHasUser(s0: Snap, s: Snap, n: NodeId)
    requires Settled(s0) && Reaped(s0, s) && Survives(s0, n)
    ensures Parents(s.edges, n) != {} || n in s.outside
  {
    var m :| m in s0.refcnt && Rooted(s0, m) && Reach(s0.edges, m, n);
    if m == n {
      if n !in s0.outside {
        var e :| e in s0.edges && s0.edges[e].owner.None? && s0.edges[e].bs == Some(n);
        assert e in s.edges && e in Parents(s.edges, n);
      }
    } else {
      var p := ReachViaParent(s0.edges, m, n);
      var e :| e in s0.edges && Links(s0.edges, e, p, n);
      assert p in ViewOf(s0).net;
      assert Survives(s0, p);
      assert e in s.edges && e in Parents(s.edges, n);
    }
  }

  lemma OrphansStep(es0: Edges, es: Edges, es': Edges, nodes: set<NodeId>, n: NodeId)
    requires Without(es0, es, Orphans(es0, nodes)) && n in nodes
    requires Without(es, es', ChildEdges(es, n))
    requires forall e :: e in es && es[e].owner == Some(n) ==> e in ChildEdges(es, n)
    ensures Without(es0, es', Orphans(es0, nodes - {n}))
  {
    forall e | e in es0 ensures e in es' <==> e !in Orphans(es0, nodes - {n}) {}
  }

  lemma ReapOne(s0: Snap, s: Snap, s': Snap, n: NodeId)
    requires Settled(s0) && Settled(s) && Reaped(s0, s) && s'.outside == s.outside
    requires n in s.refcnt && Parents(s.edges, n) == {} && n !in s.outside
    requires s'.refcnt == s.refcnt - {n} && Without(s.edges, s'.edges, ChildEdges(s.edges, n))
    ensures Reaped(s0, s')
  {
    hide Without;
    hide Orphans;
    hide Survives;
    hide Settled;
    SettledEdges(s, n);
    if Survives(s0, n) {
      SurvivorHasUser(s0, s, n);
      assert false;
    }
    OrphansStep(s0.edges, s.edges, s'.edges, s.refcnt.Keys, n);
    assert s'.refcnt.Keys == s.refcnt.Keys - {n};
  }

  lemma ReapedSame(s0: Snap, s: Snap, s': Snap)
    requires Reaped(s0, s) && s'.edges == s.edges && s'.refcnt.Keys == s.refcnt.Keys && s'.outside == s.outside
    ensures Reaped(s0, s')
  {}

  lemma ReapedEdges(s0: Snap, s: Snap)
    requires Reaped(s0, s)
    ensures Without(s0.edges, s.edges, Orphans(s0.edges, s.refcnt.Keys))
  {}

  /** What is left in the end are exactly the nodes that a user outside the graph keeps alive. */
  lemma OnlySurvivors(s0: Snap, s: Snap)
    requires Settled(s0) && Reaped(s0, s) && Settled(s) && s.scheduled == multiset{} && s.dying == {}
    ensures forall n :: n in s.refcnt <==> n in s0.refcnt && Survives(s0, n)
  {
    forall n | n in s.refcnt ensures Survives(s0, n) {
      var m := NothingLeaks(s, n);
      if m !in s0.outside {
        var e :| e in s.edges && s.edges[e].owner.None? && s.edges[e].bs == Some(m);
        assert e in s0.edges && s0.edges[e].owner.None? && s0.edges[e].bs == Some(m);
      }
      forall x: NodeId, y: NodeId | Arrow(s.edges, x, y) ensures Arrow(s0.edges, x, y) {
        var e :| e in s.edges && Links(s.edges, e, x, y);
        assert Links(s0.edges, e, x, y);
      }
      ReachMonotone(s.edges, s0.edges, m, n);
    }
  }

  /** Every node has a reference that nobody has scheduled for release. */
  ghost predicate AllKept(s: Snap)
  {
    forall n :: n in s.refcnt ==> s.refcnt[n] > s.scheduled[n]
  }

  lemma KeptStep(s: Snap, n: NodeId)
    requires AllKept(s) && n in s.scheduled && n in s.refcnt
    ensures s.refcnt[n] > 1
    ensures AllKept(Unreferenced(s, n)) && ViewOf(Unreferenced(s, n)) == ViewOf(s)
  {
    var s' := Unreferenced(s, n);
    assert ViewOf(s').net == ViewOf(s).net;
  }

  lemma KeptFromView(s: Snap)
    requires forall n :: n in ViewOf(s).net ==> ViewOf(s).net[n] > 0
    ensures AllKept(s)
  {
    assert forall n :: n in s.refcnt ==> n in ViewOf(s).net;
  }

  lemma NoneScheduled(s: Snap)
    requires s.scheduled == multiset{}
    ensures ViewOf(s).net == s.refcnt
  {}

  lemma NoPath()
    ensures Acyclic(map[])
  {}

  /** The state after `bdrv_new`, and after `bdrv_open_inherit` has let the new node inherit its
      options: the creator holds the only reference. */
  ghost function WithNode(s: Snap, n: NodeId, from: Option<NodeId>): Snap
  {
    Settle(s.(refcnt := s.refcnt[n := 1], inherits := s.inherits[n := from], outside := s.outside + multiset{n}))
  }

  lemma WithNodeInherits(inherits: Inherits, n: NodeId, from: Option<NodeId>)
    requires InheritsOk(inherits)
    requires from.Some? ==> from.value != n && forall m :: m in inherits ==> inherits[m] != Some(n)
    ensures InheritsOk(inherits[n := from])
  {
    if from.Some? {
      NobodyInherits(inherits, from.value, n);
      NewPointer(inherits, n, from.value);
    } else {
      FewerPointers(inherits, inherits[n := from]);
    }
  }

  lemma WithNodeInv(s: Snap, n: NodeId, from: Option<NodeId>)
    requires Settled(s) && n !in s.refcnt && n !in s.dying
    requires from.Some? ==> from.value != n && forall m :: m in s.inherits ==> s.inherits[m] != Some(n)
    ensures Settled(WithNode(s, n, from))
  {
    hide CountInv;
    hide UndoAll;
    WithNodeInherits(s.inherits, n, from);
    var s' := WithNode(s, n, from);
    assert Alive(ViewOf(s), s.scheduled, s.dying);
    forall e | e in s.edges ensures s.edges[e].bs != Some(n) { assert n !in ViewOf(s).net; }
    WithNodeCounts(s, n, from);
    SettledWhen(s');
  }

  lemma WithNodeCounts(s: Snap, n: NodeId, from: Option<NodeId>)
    requires CountInv(s) && n !in s.refcnt && n !in s.dying && s.tran == []
    requires forall e :: e in s.edges ==> s.edges[e].bs != Some(n)
    ensures CountInv(WithNode(s, n, from))
  {
    var s' := WithNode(s, n, from);
    forall m | m in s'.refcnt ensures AccountedAt(s'.edges, s'.tran, s'.scheduled, s'.outside, s'.refcnt, m) {
      if m != n {
        assert AccountedAt(s.edges, s.tran, s.scheduled, s.outside, s.refcnt, m);
      } else {
        assert Parents(s.edges, n) == {};
      }
    }
  }

  /** The state after `bdrv_ref`. */
  ghost function Referenced(s: Snap, n: NodeId): Snap
    requires n in s.refcnt
  {
    Settle(s.(refcnt := s.refcnt[n := s.refcnt[n] + 1], outside := s.outside + multiset{n}))
  }

  lemma ReferencedInv(s: Snap, n: NodeId)
    requires Settled(s) && n in s.refcnt && n !in s.dying
    ensures Settled(Referenced(s, n))
  {
    var s' := Referenced(s, n);
    assert Alive(ViewOf(s), s.scheduled, s.dying);
    ReferencedCounts(s, n);
    SettledWhen(s');
  }

  lemma ReferencedCounts(s: Snap, n: NodeId)
    requires CountInv(s) && n in s.refcnt && n !in s.dying
    ensures CountInv(Referenced(s, n))
  {
    var s' := Referenced(s, n);
    forall m | m in s'.refcnt ensures AccountedAt(s'.edges, s'.tran, s'.scheduled, s'.outside, s'.refcnt, m) {
      assert AccountedAt(s.edges, s.tran, s.scheduled, s.outside, s.refcnt, m);
    }
  }
}
