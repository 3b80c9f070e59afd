/** What every run of the authorization pallet keeps, from any genesis, whoever calls what. */
module AuthorizationInvariants {
  import opened OrderedIds
  import opened AuthorizationSpec
  import opened AuthorizationHistory

  function Max(a: nat, b: nat): nat {
    if a < b then b else a
  }

  /** Well-known nodes and nodes with a connections row are owned. */
  ghost predicate Owned(t: Tables) {
    t.wellKnown <= t.owners.Keys && t.connections.Keys <= t.owners.Keys
  }

  lemma StepKeepsOwned(cfg: Config, t: Tables, tx: Tx)
    requires Owned(t)
    ensures Owned(Step(cfg, t, tx).tables)
  {
  }

  lemma {:induction false} IdCount(nodes: NodeList)
    ensures |Ids(nodes)| <= |nodes|
  {
    if nodes == [] {
      assert Ids(nodes) == {};
    } else {
      var n := |nodes| - 1;
      IdCount(nodes[..n]);
      var all := Ids(nodes[..n]) + {nodes[n].0};
      assert Ids(nodes) <= all by {
        forall id | id in Ids(nodes) ensures id in all {
          var i :| 0 <= i < |nodes| && nodes[i].0 == id;
          if i < n { assert nodes[..n][i].0 == id; }
        }
      }
      SubsetCount(Ids(nodes), all);
    }
  }

  lemma {:induction false} SubsetCount(a: set<PeerId>, b: set<PeerId>)
    requires a <= b
    ensures |a| <= |b|
  {
    assert b == a + (b - a);
  }

  /** What the events of one call say about the well-known set before and after it. */
  ghost predicate WellKnownMove(cfg: Config, s: set<PeerId>, s': set<PeerId>, emitted: seq<Event>) {
    if emitted == [] then s' == s else
      match emitted[0]
      case NodeAdded(node, _) => |s| < cfg.maxWellKnownNodes && node !in s && s' == s + {node}
      case NodeRemoved(node) => node in s && s' == s - {node}
      case NodeSwapped(remove, add) => remove in s && add !in s && s' == s - {remove} + {add}
      case NodesReset(nodes) => |nodes| < cfg.maxWellKnownNodes && s' == Ids(nodes)
      case _ => s' == s
  }

  lemma StepMovesWellKnown(cfg: Config, t: Tables, tx: Tx)
    ensures var out := Step(cfg, t, tx);
            WellKnownMove(cfg, t.wellKnown, out.tables.wellKnown, out.emitted)
  {
    StepReplays(cfg, t, tx);
    StepIsPossible(cfg, t, tx);
    var out := Step(cfg, t, tx);
    if out.emitted != [] { EventMovesWellKnown(cfg, t, out.emitted[0]); }
  }

  lemma EventMovesWellKnown(cfg: Config, t: Tables, e: Event)
    requires Possible(cfg, t, e)
    ensures WellKnownMove(cfg, t.wellKnown, Replay(t, e).wellKnown, [e])
  {
  }

  lemma MoveKeepsBound(cfg: Config, s: set<PeerId>, s': set<PeerId>, emitted: seq<Event>, bound: nat)
    requires WellKnownMove(cfg, s, s', emitted)
    requires |s| <= bound && cfg.maxWellKnownNodes <= bound
    ensures |s'| <= bound
  {
    if emitted != [] {
      match emitted[0]
      case NodeRemoved(node) => SubsetCount(s', s);
      case NodeSwapped(remove, add) => assert |s - {remove}| == |s| - 1;
      case NodesReset(nodes) => IdCount(nodes);
      case _ =>
    }
  }

  lemma {:induction false} RunKeepsOwned(cfg: Config, t: Tables, txs: seq<Tx>, bound: nat)
    requires Owned(t)
    requires |t.wellKnown| <= bound && cfg.maxWellKnownNodes <= bound
    ensures Owned(Final(cfg, t, txs)) && |Final(cfg, t, txs).wellKnown| <= bound
    decreases txs
  {
    if txs != [] {
      StepKeepsOwned(cfg, t, txs[0]);
      StepMovesWellKnown(cfg, t, txs[0]);
      var out := Step(cfg, t, txs[0]);
      MoveKeepsBound(cfg, t.wellKnown, out.tables.wellKnown, out.emitted, bound);
      RunKeepsOwned(cfg, Step(cfg, t, txs[0]).tables, txs[1..], bound);
    }
  }

  /** In every reachable state well-known nodes and connected nodes are owned, any two distinct
      well-known nodes authorise each other, and the number of well-known nodes is at most the
      configured maximum or the number of distinct genesis ids, whichever is larger. */
  lemma ReachableTables(cfg: Config, nodes: NodeList, txs: seq<Tx>)
    ensures var t := Final(cfg, Genesis(nodes), txs);
            && Owned(t)
            && |t.wellKnown| <= Max(cfg.maxWellKnownNodes, |Ids(nodes)|)
            && (forall m, n :: m in t.wellKnown && n in t.wellKnown && m != n ==> m in t.Authorized(n))
  {
    RunKeepsOwned(cfg, Genesis(nodes), txs, Max(cfg.maxWellKnownNodes, |Ids(nodes)|));
  }

  // ---------------------------------------------------------------- genesis and reset

  /** Entry `i` is the last one for its id. */
  ghost predicate LastEntry(nodes: NodeList, i: nat)
    requires i < |nodes|
  {
    forall j :: i < j < |nodes| ==> nodes[j].0 != nodes[i].0
  }

  lemma {:induction false} LastOwnerIsLast(nodes: NodeList, i: nat)
    requires i < |nodes| && LastEntry(nodes, i)
    ensures nodes[i].0 in Ids(nodes) && LastOwner(nodes, nodes[i].0) == nodes[i].1
  {
    var n := |nodes| - 1;
    assert nodes[i].0 in Ids(nodes);
    if i < n {
      LastOwnerIsLast(nodes[..n], i);
    }
  }

  /** Genesis and reset: exactly the listed ids become well known, each owned by the account of
      its last entry; other owners and every connections row stay. */
  lemma InitializedMeaning(t: Tables, nodes: NodeList)
    ensures var u := Initialized(t, nodes);
            && |u.wellKnown| <= |nodes|
            && (forall n :: n in u.wellKnown <==> exists i :: 0 <= i < |nodes| && nodes[i].0 == n)
            && (forall i :: 0 <= i < |nodes| && LastEntry(nodes, i) ==> u.OwnedBy(nodes[i].0, nodes[i].1))
            && (forall n :: n !in u.wellKnown ==> RowOf(u, n).owner == RowOf(t, n).owner)
            && u.connections == t.connections
  {
    IdCount(nodes);
    forall i | 0 <= i < |nodes| && LastEntry(nodes, i)
      ensures Initialized(t, nodes).OwnedBy(nodes[i].0, nodes[i].1)
    {
      LastOwnerIsLast(nodes, i);
    }
  }

  /** Genesis: a node is well known exactly when listed, exactly the well-known nodes are owned, each by
      the account of its last entry, and nobody has connections. */
  lemma GenesisMeaning(nodes: NodeList)
    ensures var g := Genesis(nodes);
            && (forall n :: n in g.wellKnown <==> exists i :: 0 <= i < |nodes| && nodes[i].0 == n)
            && g.owners.Keys == g.wellKnown
            && (forall i :: 0 <= i < |nodes| && LastEntry(nodes, i) ==> g.OwnedBy(nodes[i].0, nodes[i].1))
            && g.connections == map[]
  {
    InitializedMeaning(Tables({}, map[], map[]), nodes);
  }

  /** Doing it twice changes nothing, and a later list with the same ids leaves only its owners. */
  lemma InitializedTwice(t: Tables, nodes: NodeList, later: NodeList)
    ensures Initialized(Initialized(t, nodes), nodes) == Initialized(t, nodes)
    ensures Ids(later) == Ids(nodes) ==> Initialized(Initialized(t, nodes), later) == Initialized(t, later)
  {
    assert Initialized(Initialized(t, nodes), nodes).owners == Initialized(t, nodes).owners;
    if Ids(later) == Ids(nodes) {
      assert Initialized(Initialized(t, nodes), later).owners == Initialized(t, later).owners;
    }
  }

  // ---------------------------------------------------------------- identifiers of excessive length

  /** Whether a call is an accepted reset: this depends on the call alone, not on the tables. */
  predicate AcceptedReset(cfg: Config, tx: Tx) {
    tx.call.ResetWellKnownNodes? && cfg.resetOrigin(tx.origin) && |tx.call.nodes| < cfg.maxWellKnownNodes
  }

  /** The lists of the accepted resets of a run. */
  function ResetLists(cfg: Config, txs: seq<Tx>): seq<NodeList> {
    if txs == [] then []
    else (if AcceptedReset(cfg, txs[0]) then [txs[0].call.nodes] else []) + ResetLists(cfg, txs[1..])
  }

  function InitializedAll(t: Tables, lists: seq<NodeList>): Tables
    decreases lists
  {
    if lists == [] then t else InitializedAll(Initialized(t, lists[0]), lists[1..])
  }

  lemma StepOnLongId(cfg: Config, t: Tables, tx: Tx, u: Tables, node: PeerId)
    requires !cfg.Short(node)
    requires RowOf(t, node) == RowOf(u, node)
    ensures RowOf(Step(cfg, t, tx).tables, node)
         == RowOf(if AcceptedReset(cfg, tx) then Initialized(u, tx.call.nodes) else u, node)
  {
  }

  /** A run treats an identifier that is too long as if the run were its accepted resets alone:
      no other call can make it known, forget it, change its owner or give it connections. */
  lemma {:induction false} LongIdsOnlySeeResets(cfg: Config, t: Tables, txs: seq<Tx>, u: Tables, node: PeerId)
    requires !cfg.Short(node)
    requires RowOf(t, node) == RowOf(u, node)
    ensures RowOf(Final(cfg, t, txs), node) == RowOf(InitializedAll(u, ResetLists(cfg, txs)), node)
    decreases txs
  {
    if txs != [] {
      StepOnLongId(cfg, t, txs[0], u, node);
      var next := Step(cfg, t, txs[0]).tables;
      var rest := ResetLists(cfg, txs[1..]);
      if AcceptedReset(cfg, txs[0]) {
        var nodes := txs[0].call.nodes;
        assert ResetLists(cfg, txs) == [nodes] + rest;
        assert ([nodes] + rest)[1..] == rest;
        LongIdsOnlySeeResets(cfg, next, txs[1..], Initialized(u, nodes), node);
      } else {
        assert ResetLists(cfg, txs) == rest;
        LongIdsOnlySeeResets(cfg, next, txs[1..], u, node);
      }
    }
  }

  /** Resets never take an owner away or touch connections, and give an owner only to listed ids. */
  lemma {:induction false} InitializedAllOwners(t: Tables, lists: seq<NodeList>, node: PeerId)
    ensures node in InitializedAll(t, lists).owners
        <==> node in t.owners || exists i :: 0 <= i < |lists| && node in Ids(lists[i])
    ensures InitializedAll(t, lists).connections == t.connections
    decreases lists
  {
    if lists != [] {
      InitializedAllOwners(Initialized(t, lists[0]), lists[1..], node);
      if i :| 0 <= i < |lists| && node in Ids(lists[i]) {
        if i > 0 { assert lists[1..][i - 1] == lists[i]; }
      }
    }
  }

  /** From genesis on, an over-long identifier is owned exactly when genesis or an accepted reset
      listed it; it then stays owned, and it never has a connections row. */
  lemma LongIdsEnterByResetOnly(cfg: Config, nodes: NodeList, txs: seq<Tx>, node: PeerId)
    requires !cfg.Short(node)
    ensures var t := Final(cfg, Genesis(nodes), txs);
            && (node in t.owners <==>
                  node in Ids(nodes) || exists i :: 0 <= i < |ResetLists(cfg, txs)| && node in Ids(ResetLists(cfg, txs)[i]))
            && node !in t.connections
  {
    var g := Genesis(nodes);
    LongIdsOnlySeeResets(cfg, g, txs, g, node);
    InitializedAllOwners(g, ResetLists(cfg, txs), node);
  }

  /** If genesis and the accepted resets list only short ids, every key of every table is short. */
  lemma ShortIdsStayShort(cfg: Config, nodes: NodeList, txs: seq<Tx>, node: PeerId)
    requires forall id :: id in Ids(nodes) ==> cfg.Short(id)
    requires forall i, id :: 0 <= i < |ResetLists(cfg, txs)| && id in Ids(ResetLists(cfg, txs)[i]) ==> cfg.Short(id)
    ensures var t := Final(cfg, Genesis(nodes), txs);
            node in t.wellKnown || node in t.owners || node in t.connections ==> cfg.Short(node)
  {
    ReachableTables(cfg, nodes, txs);
    if !cfg.Short(node) {
      LongIdsEnterByResetOnly(cfg, nodes, txs, node);
    }
  }
}
