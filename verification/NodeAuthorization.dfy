/** The pallet's storage and its dispatchable calls, updated in place.  Each call is proved against
    its meaning on the tables (module AuthorizationSpec): new tables, emitted events and result. */
module NodeAuthorization {
  import opened OrderedIds
  import opened FrameSystem
  import opened AuthorizationSpec

  function Sets(m: map<PeerId, seq<PeerId>>): map<PeerId, set<PeerId>> {
    map n | n in m :: Members(m[n])
  }

  class Pallet {
    const cfg: Config
    var wellKnownNodes: seq<PeerId>
    var owners: map<PeerId, AccountId>
    var additionalConnections: map<PeerId, seq<PeerId>>
    var events: seq<Event>

    /** Every stored set is in ascending order. */
    ghost predicate Valid()
      reads this
    {
      && Ascending(wellKnownNodes)
      && forall n :: n in additionalConnections ==> Ascending(additionalConnections[n])
    }

    ghost function View(): Tables
      reads this
    {
      Tables(Members(wellKnownNodes), owners, Sets(additionalConnections))
    }

    /** What a call did since it began, as seen through the tables and the event log. */
    twostate predicate Did(result: DispatchResult, out: Outcome)
      reads this
    {
      && Valid()
      && View() == out.tables
      && events == old(events) + out.emitted
      && result == out.result
    }

    constructor (cfg: Config, nodes: NodeList)
      ensures Valid() && this.cfg == cfg && events == []
      ensures View() == Genesis(nodes)
    {
      this.cfg := cfg;
      wellKnownNodes, owners, additionalConnections, events := [], map[], map[], [];
      new;
      InitializeNodes(nodes);
    }

    method InitializeNodes(nodes: NodeList)
      requires Valid()
      modifies `wellKnownNodes, `owners
      ensures Valid() && View() == Initialized(old(View()), nodes)
    {
      var peerIds: seq<PeerId> := [];
      for i := 0 to |nodes|
        modifies {}
        invariant Ascending(peerIds) && Members(peerIds) == Ids(nodes[..i])
      {
        IdsSnoc(nodes, i);
        peerIds := Insert(peerIds, nodes[i].0);
      }
      assert nodes[..|nodes|] == nodes;
      wellKnownNodes := peerIds;

      assert Ids(nodes[..0]) == {};
      for i := 0 to |nodes|
        invariant wellKnownNodes == peerIds
        invariant owners == Initialized(old(View()), nodes[..i]).owners
      {
        InitializedSnoc(old(View()), nodes, i);
        owners := owners[nodes[i].0 := nodes[i].1];
      }
    }

    method AddWellKnownNode(origin: Origin, node: PeerId, owner: AccountId) returns (result: DispatchResult)
      requires Valid()
      modifies `wellKnownNodes, `owners, `events
      ensures Did(result, AddNode(cfg, old(View()), origin, node, owner))
    {
      AscendingCount(wellKnownNodes);
      if !cfg.addOrigin(origin) { return Err(BadOrigin); }
      if |node| >= cfg.maxPeerIdLength { return Err(PeerIdTooLong); }
      var nodes := wellKnownNodes;
      if |nodes| >= cfg.maxWellKnownNodes { return Err(TooManyNodes); }
      if node in nodes { return Err(AlreadyJoined); }
      nodes := Insert(nodes, node);
      wellKnownNodes := nodes;
      owners := owners[node := owner];
      events := events + [NodeAdded(node, owner)];
      return Ok;
    }

    method RemoveWellKnownNode(origin: Origin, node: PeerId) returns (result: DispatchResult)
      requires Valid()
      modifies this
      ensures Did(result, RemoveNode(cfg, old(View()), origin, node))
    {
      if !cfg.removeOrigin(origin) { return Err(BadOrigin); }
      if |node| >= cfg.maxPeerIdLength { return Err(PeerIdTooLong); }
      var nodes := wellKnownNodes;
      if node !in nodes { return Err(NotExist); }
      nodes := Remove(nodes, node);
      wellKnownNodes := nodes;
      owners := owners - {node};
      additionalConnections := additionalConnections - {node};
      events := events + [NodeRemoved(node)];
      return Ok;
    }

    method SwapWellKnownNode(origin: Origin, remove: PeerId, add: PeerId) returns (result: DispatchResult)
      requires Valid()
      modifies this
      ensures Did(result, SwapNode(cfg, old(View()), origin, remove, add))
    {
      if !cfg.swapOrigin(origin) { return Err(BadOrigin); }
      if |remove| >= cfg.maxPeerIdLength { return Err(PeerIdTooLong); }
      if |add| >= cfg.maxPeerIdLength { return Err(PeerIdTooLong); }
      if remove == add { return Ok; }
      var nodes := wellKnownNodes;
      if remove !in nodes { return Err(NotExist); }
      if add in nodes { return Err(AlreadyJoined); }
      nodes := Remove(nodes, remove);
      nodes := Insert(nodes, add);
      wellKnownNodes := nodes;
      owners := SwapRows(owners, remove, add);
      SetsOfSwappedRows(additionalConnections, remove, add);
      additionalConnections := SwapRows(additionalConnections, remove, add);
      events := events + [NodeSwapped(remove, add)];
      return Ok;
    }

    method ResetWellKnownNodes(origin: Origin, nodes: NodeList) returns (result: DispatchResult)
      requires Valid()
      modifies `wellKnownNodes, `owners, `events
      ensures Did(result, ResetNodes(cfg, old(View()), origin, nodes))
    {
      if !cfg.resetOrigin(origin) { return Err(BadOrigin); }
      if |nodes| >= cfg.maxWellKnownNodes { return Err(TooManyNodes); }
      InitializeNodes(nodes);
      events := events + [NodesReset(nodes)];
      return Ok;
    }

    method ClaimNode(origin: Origin, node: PeerId) returns (result: DispatchResult)
      requires Valid()
      modifies `owners, `events
      ensures Did(result, Claim(cfg, old(View()), origin, node))
    {
      if !origin.Signed? { return Err(BadOrigin); }
      var sender := origin.who;
      if |node| >= cfg.maxPeerIdLength { return Err(PeerIdTooLong); }
      if node in owners { return Err(AlreadyClaimed); }
      owners := owners[node := sender];
      events := events + [NodeClaimed(node, sender)];
      return Ok;
    }

    method RemoveClaim(origin: Origin, node: PeerId) returns (result: DispatchResult)
      requires Valid()
      modifies `owners, `additionalConnections, `events
      ensures Did(result, Unclaim(cfg, old(View()), origin, node))
    {
      if !origin.Signed? { return Err(BadOrigin); }
      var sender := origin.who;
      if |node| >= cfg.maxPeerIdLength { return Err(PeerIdTooLong); }
      if node !in owners { return Err(NotClaimed); }
      if owners[node] != sender { return Err(NotOwner); }
      if node in wellKnownNodes { return Err(PermissionDenied); }
      owners := owners - {node};
      additionalConnections := additionalConnections - {node};
      events := events + [ClaimRemoved(node, sender)];
      return Ok;
    }

    method TransferNode(origin: Origin, node: PeerId, owner: AccountId) returns (result: DispatchResult)
      requires Valid()
      modifies `owners, `events
      ensures Did(result, Transfer(cfg, old(View()), origin, node, owner))
    {
      if !origin.Signed? { return Err(BadOrigin); }
      var sender := origin.who;
      if |node| >= cfg.maxPeerIdLength { return Err(PeerIdTooLong); }
      if node !in owners { return Err(NotClaimed); }
      if owners[node] != sender { return Err(NotOwner); }
      owners := owners[node := owner];
      events := events + [NodeTransferred(node, owner)];
      return Ok;
    }

    method AddConnections(origin: Origin, node: PeerId, connections: seq<PeerId>) returns (result: DispatchResult)
      requires Valid()
      modifies `additionalConnections, `events
      ensures Did(result, Connect(cfg, old(View()), origin, node, connections))
    {
      if !origin.Signed? { return Err(BadOrigin); }
      var sender := origin.who;
      if |node| >= cfg.maxPeerIdLength { return Err(PeerIdTooLong); }
      if node !in owners { return Err(NotClaimed); }
      if owners[node] != sender { return Err(NotOwner); }
      var nodes := if node in additionalConnections then additionalConnections[node] else [];
      ghost var links := View().Links(node);
      for i := 0 to |connections|
        modifies {}
        invariant Connected(nodes, links, connections[..i], node)
      {
        ConnectedNext(nodes, links, connections, i, node);
        if connections[i] == node { continue; }
        nodes := Insert(nodes, connections[i]);
      }
      assert connections[..|connections|] == connections;
      additionalConnections := additionalConnections[node := nodes];
      assert View().connections == old(View().connections)[node := Members(nodes)];
      events := events + [ConnectionsAdded(node, connections)];
      return Ok;
    }

    method RemoveConnections(origin: Origin, node: PeerId, connections: seq<PeerId>) returns (result: DispatchResult)
      requires Valid()
      modifies `additionalConnections, `events
      ensures Did(result, Disconnect(cfg, old(View()), origin, node, connections))
    {
      if !origin.Signed? { return Err(BadOrigin); }
      var sender := origin.who;
      if |node| >= cfg.maxPeerIdLength { return Err(PeerIdTooLong); }
      if node !in owners { return Err(NotClaimed); }
      if owners[node] != sender { return Err(NotOwner); }
      var nodes := if node in additionalConnections then additionalConnections[node] else [];
      ghost var links := View().Links(node);
      for i := 0 to |connections|
        modifies {}
        invariant Ascending(nodes)
        invariant Members(nodes) == links - Members(connections[..i])
      {
        MembersSnoc(connections, i);
        nodes := Remove(nodes, connections[i]);
      }
      assert connections[..|connections|] == connections;
      additionalConnections := additionalConnections[node := nodes];
      assert View().connections == old(View().connections)[node := Members(nodes)];
      events := events + [ConnectionsRemoved(node, connections)];
      return Ok;
    }

    /** The vector handed to the network layer: ascending, hence duplicate-free and the only such
        vector with these members. */
    method GetAuthorizedNodes(node: PeerId) returns (list: seq<PeerId>)
      requires Valid()
      ensures Ascending(list) && Members(list) == View().Authorized(node)
      ensures forall q :: q in list <==>
                || (node in additionalConnections && q in additionalConnections[node])
                || (node in wellKnownNodes && q in wellKnownNodes && q != node)
      ensures forall other :: Ascending(other) && Members(other) == View().Authorized(node) ==> other == list
    {
      var nodes := if node in additionalConnections then additionalConnections[node] else [];
      var wellKnown := wellKnownNodes;
      if node in wellKnown {
        wellKnown := Remove(wellKnown, node);
        nodes := Extend(nodes, wellKnown);
      }
      list := nodes;
      assert forall q :: q in list <==> q in Members(list);
      assert forall q :: q in wellKnownNodes <==> q in Members(wellKnownNodes);
      forall other | Ascending(other) && Members(other) == View().Authorized(node) ensures other == list {
        AscendingIsCanonical(other, list);
      }
    }

    /** The generated dispatcher: one step of the state machine, whatever the call. */
    method Dispatch(tx: Tx) returns (result: DispatchResult)
      requires Valid()
      modifies this
      ensures Did(result, Step(cfg, old(View()), tx))
    {
      match tx.call
      case AddWellKnownNode(node, owner) => result := AddWellKnownNode(tx.origin, node, owner);
      case RemoveWellKnownNode(node) => result := RemoveWellKnownNode(tx.origin, node);
      case SwapWellKnownNode(remove, add) => result := SwapWellKnownNode(tx.origin, remove, add);
      case ResetWellKnownNodes(nodes) => result := ResetWellKnownNodes(tx.origin, nodes);
      case ClaimNode(node) => result := ClaimNode(tx.origin, node);
      case RemoveClaim(node) => result := RemoveClaim(tx.origin, node);
      case TransferNode(node, owner) => result := TransferNode(tx.origin, node, owner);
      case AddConnections(node, connections) => result := AddConnections(tx.origin, node, connections);
      case RemoveConnections(node, connections) => result := RemoveConnections(tx.origin, node, connections);
    }
  }

  lemma IdsSnoc(nodes: NodeList, i: nat)
    requires i < |nodes|
    ensures Ids(nodes[..i + 1]) == Ids(nodes[..i]) + {nodes[i].0}
  {
    var front := nodes[..i];
    forall n | n in Ids(front) ensures n in Ids(nodes[..i + 1]) {
      var j :| 0 <= j < |front| && front[j].0 == n;
      assert nodes[..i + 1][j].0 == n;
    }
    assert nodes[..i + 1][i].0 == nodes[i].0;
    forall n | n in Ids(nodes[..i + 1]) && n != nodes[i].0 ensures n in Ids(front) {
      var j :| 0 <= j < i + 1 && nodes[..i + 1][j].0 == n;
      assert front[j].0 == n;
    }
  }

  /** Inserting the owners in list order leaves each id with the owner of its last entry. */
  lemma InitializedSnoc(t: Tables, nodes: NodeList, i: nat)
    requires i < |nodes|
    ensures Initialized(t, nodes[..i + 1]).owners == Initialized(t, nodes[..i]).owners[nodes[i].0 := nodes[i].1]
  {
    IdsSnoc(nodes, i);
    assert nodes[..i + 1][..i] == nodes[..i];
  }

  lemma SetsOfSwappedRows(m: map<PeerId, seq<PeerId>>, a: PeerId, b: PeerId)
    ensures Sets(SwapRows(m, a, b)) == SwapRows(Sets(m), a, b)
  {
  }

  /** `nodes` holds `links` and the listed ids, except the node itself. */
  ghost predicate Connected(nodes: seq<PeerId>, links: set<PeerId>, list: seq<PeerId>, node: PeerId) {
    Ascending(nodes) && Members(nodes) == links + (Members(list) - {node})
  }

  lemma ConnectedNext(nodes: seq<PeerId>, links: set<PeerId>, list: seq<PeerId>, i: nat, node: PeerId)
    requires i < |list| && Connected(nodes, links, list[..i], node)
    ensures Connected(if list[i] == node then nodes else Insert(nodes, list[i]), links, list[..i + 1], node)
  {
    MembersSnoc(list, i);
  }

  lemma MembersSnoc(s: seq<PeerId>, i: nat)
    requires i < |s|
    ensures Members(s[..i + 1]) == Members(s[..i]) + {s[i]}
  {
    assert s[..i + 1] == s[..i] + [s[i]];
  }
}
