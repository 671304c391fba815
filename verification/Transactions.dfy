/** Tentative graph edits.  Every edit records an action; aborting a transaction undoes the
    actions in the opposite order (`qemu/util/transactions.c`). */
module Transactions {

  import opened Wrappers
  import opened Permissions
  import opened Graph
  import opened RefreshPerms

  type RefCounts = map<NodeId, int>
  type Inherits = map<NodeId, Option<NodeId>>

  /** One record per TransactionActionDrv of `qemu/block.c`. */
  datatype Action =
    | SetPerm(e: EdgeId, oldGrant: Grant)              // bdrv_child_set_pem_drv
    | DriverSetPerm(n: NodeId)                         // bdrv_drv_set_perm_drv
    | Replaced(e: EdgeId, oldBs: Option<NodeId>)       // bdrv_replace_child_drv
    | Attached(e: EdgeId)                              // bdrv_attach_child_common_drv
    | Removed(e: EdgeId)                               // bdrv_remove_child_drv
    | SetInherits(n: NodeId, oldFrom: Option<NodeId>)  // bdrv_set_inherits_from_drv

  /** What an abort has to bring back.  `net` is the reference count a node will have once
      all scheduled unrefs have run. */
  datatype View = View(edges: Edges, inherits: Inherits, net: RefCounts)

  function Drop(net: RefCounts, n: Option<NodeId>): RefCounts
  {
    if n.Some? && n.value in net then net[n.value := net[n.value] - 1] else net
  }

  function Net(refcnt: RefCounts, scheduled: multiset<NodeId>): RefCounts
  {
    map n | n in refcnt :: refcnt[n] - scheduled[n]
  }

  /** The `.abort` callback of an action. */
  function Undo(v: View, a: Action): View
  {
    match a
    case SetPerm(e, oldGrant) =>
      if e in v.edges then v.(edges := v.edges[e := v.edges[e].(grant := oldGrant)]) else v
    case Replaced(e, oldBs) =>
      if e in v.edges
      then v.(edges := v.edges[e := v.edges[e].(bs := oldBs)], net := Drop(v.net, v.edges[e].bs)) else v
    case Attached(e) =>
      if e in v.edges then v.(edges := v.edges - {e}, net := Drop(v.net, v.edges[e].bs)) else v
    case SetInherits(n, oldFrom) => v.(inherits := v.inherits[n := oldFrom])
    case Removed(_) | DriverSetPerm(_) => v
  }

  /** `tran_abort`: last added, first undone. */
  function UndoAll(v: View, tran: seq<Action>): View
    decreases |tran|
  {
    if tran == [] then v else UndoAll(Undo(v, tran[|tran| - 1]), tran[..|tran| - 1])
  }

  /** The action can be undone in the state `v`. */
  predicate Ready(v: View, a: Action)
  {
    match a
    case SetPerm(e, _) => e in v.edges
    case Replaced(e, _) => e in v.edges
    case Attached(e) => e in v.edges && v.edges[e].bs.Some?
    case _ => true
  }

  /** All edges join existing nodes and every node but the dying ones is referenced. */
  ghost predicate Alive(v: View, scheduled: multiset<NodeId>, dying: set<NodeId>)
  {
    && (forall e :: e in v.edges ==>
          && (v.edges[e].owner.Some? ==> v.edges[e].owner.value in v.net)
          && (v.edges[e].bs.Some? ==> v.edges[e].bs.value in v.net))
    && (forall n :: n in v.net && n !in dying ==> v.net[n] + scheduled[n] >= 1)
  }

  /** Every state on the way back is a good one. */
  ghost predicate ChainOk(v: View, tran: seq<Action>, scheduled: multiset<NodeId>, dying: set<NodeId>)
    decreases |tran|
  {
    && Alive(v, scheduled, dying)
    && (tran != [] ==>
          && Ready(v, tran[|tran| - 1])
          && ChainOk(Undo(v, tran[|tran| - 1]), tran[..|tran| - 1], scheduled, dying))
  }

  /** Recording an action for an edit that the action undoes keeps the way back. */
  lemma Recorded(v: View, v': View, tran: seq<Action>, a: Action, scheduled: multiset<NodeId>, dying: set<NodeId>)
    requires ChainOk(v, tran, scheduled, dying) && Alive(v', scheduled, dying)
    requires Ready(v', a) && Undo(v', a) == v
    ensures UndoAll(v', tran + [a]) == UndoAll(v, tran)
    ensures ChainOk(v', tran + [a], scheduled, dying)
  {
    assert (tran + [a])[..|tran + [a]| - 1] == tran;
  }

  // ---------------------------------------------------------------------------
  // Reference accounting
  // ---------------------------------------------------------------------------

  /** References that pending replace actions hold on to. */
  function Held(tran: seq<Action>): multiset<NodeId>
  {
    if tran == [] then multiset{} else Held(tran[..|tran| - 1]) + HeldBy(tran[|tran| - 1])
  }

  function HeldBy(a: Action): multiset<NodeId>
  {
    if a.Replaced? && a.oldBs.Some? then multiset{a.oldBs.value} else multiset{}
  }

  lemma HeldAppend(tran: seq<Action>, a: Action)
    ensures Held(tran + [a]) == Held(tran) + HeldBy(a)
  {
    assert (tran + [a])[..|tran + [a]| - 1] == tran;
  }

  /** A node's reference count equals the edges that point at it plus the references held by
      pending replace actions, scheduled unrefs and outside holders. */
  ghost predicate Accounted(edges: Edges, tran: seq<Action>, scheduled: multiset<NodeId>,
                            outside: multiset<NodeId>, refcnt: RefCounts)
  {
    forall n {:trigger AccountedAt(edges, tran, scheduled, outside, refcnt, n)} ::
      n in refcnt ==> AccountedAt(edges, tran, scheduled, outside, refcnt, n)
  }

  ghost predicate AccountedAt(edges: Edges, tran: seq<Action>, scheduled: multiset<NodeId>,
                              outside: multiset<NodeId>, refcnt: RefCounts, n: NodeId)
    requires n in refcnt
  {
    refcnt[n] == |Parents(edges, n)| + Held(tran)[n] + scheduled[n] + outside[n]
  }

  function One(b: Option<NodeId>, n: NodeId): nat
  {
    if b == Some(n) then 1 else 0
  }

  lemma ParentsAfterInsert(es: Edges, e: EdgeId, edge: Edge, n: NodeId)
    requires e !in es
    ensures |Parents(es[e := edge], n)| == |Parents(es, n)| + One(edge.bs, n)
  {
    assert Parents(es[e := edge], n) == Parents(es, n) + (if edge.bs == Some(n) then {e} else {});
  }

  lemma ParentsAfterRemove(es: Edges, e: EdgeId, n: NodeId)
    requires e in es
    ensures |Parents(es - {e}, n)| == |Parents(es, n)| - One(es[e].bs, n)
  {
    var rest := Parents(es, n) - {e};
    assert Parents(es, n) == rest + (if es[e].bs == Some(n) then {e} else {});
    assert Parents(es - {e}, n) == rest;
  }

  lemma ParentsAfterMove(es: Edges, e: EdgeId, bs: Option<NodeId>, n: NodeId)
    requires e in es
    ensures |Parents(es[e := es[e].(bs := bs)], n)| == |Parents(es, n)| - One(es[e].bs, n) + One(bs, n)
  {
    ParentsAfterRemove(es, e, n);
    ParentsAfterInsert(es - {e}, e, es[e].(bs := bs), n);
    assert es[e := es[e].(bs := bs)] == (es - {e})[e := es[e].(bs := bs)];
  }

  lemma ParentsSameTargets(es: Edges, es': Edges, n: NodeId)
    requires es.Keys == es'.Keys && forall e :: e in es ==> es[e].bs == es'[e].bs
    ensures Parents(es, n) == Parents(es', n)
  {}

  /** The nodes that pending replace actions hold on to exist. */
  lemma {:induction false} HeldExists(v: View, tran: seq<Action>, scheduled: multiset<NodeId>, dying: set<NodeId>)
    requires ChainOk(v, tran, scheduled, dying)
    ensures forall n :: n in Held(tran) ==> n in v.net
    decreases |tran|
  {
    if tran != [] {
      var a := tran[|tran| - 1];
      HeldExists(Undo(v, a), tran[..|tran| - 1], scheduled, dying);
      if HeldBy(a) != multiset{} {
        assert Undo(v, a).edges[a.e].bs == a.oldBs;
        assert Alive(Undo(v, a), scheduled, dying);
      }
    }
  }
}
