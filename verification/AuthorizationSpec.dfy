/** The node-authorization pallet as a state machine: three tables, nine calls, one event log.
    Sets of identifiers are plain sets here; module NodeAuthorization holds the storage itself. */
module AuthorizationSpec {
  import opened Wrappers
  import opened OrderedIds
  import opened FrameSystem

  /** The pallet's configuration: two strict bounds and the four privileged origins. */
  datatype Config = Config(
    maxWellKnownNodes: nat,
    maxPeerIdLength: nat,
    addOrigin: Origin -> bool,
    removeOrigin: Origin -> bool,
    swapOrigin: Origin -> bool,
    resetOrigin: Origin -> bool)
  {
    predicate Short(node: PeerId) { |node| < maxPeerIdLength }

    /** The four privileged origins are root alone, as the runtime configures them. */
    ghost predicate RootOnly() {
      forall o :: (addOrigin(o) <==> o.Root?) && (removeOrigin(o) <==> o.Root?)
               && (swapOrigin(o) <==> o.Root?) && (resetOrigin(o) <==> o.Root?)
    }
  }

  datatype Error =
    | BadOrigin | PeerIdTooLong | TooManyNodes | AlreadyJoined | NotExist
    | AlreadyClaimed | NotClaimed | NotOwner | PermissionDenied

  datatype DispatchResult = Ok | Err(error: Error)

  type NodeList = seq<(PeerId, AccountId)>

  datatype Event =
    | NodeAdded(node: PeerId, owner: AccountId)
    | NodeRemoved(node: PeerId)
    | NodeSwapped(remove: PeerId, add: PeerId)
    | NodesReset(nodes: NodeList)
    | NodeClaimed(node: PeerId, who: AccountId)
    | ClaimRemoved(node: PeerId, who: AccountId)
    | NodeTransferred(node: PeerId, owner: AccountId)
    | ConnectionsAdded(node: PeerId, connections: seq<PeerId>)
    | ConnectionsRemoved(node: PeerId, connections: seq<PeerId>)

  datatype Call =
    | AddWellKnownNode(node: PeerId, owner: AccountId)
    | RemoveWellKnownNode(node: PeerId)
    | SwapWellKnownNode(remove: PeerId, add: PeerId)
    | ResetWellKnownNodes(nodes: NodeList)
    | ClaimNode(node: PeerId)
    | RemoveClaim(node: PeerId)
    | TransferNode(node: PeerId, owner: AccountId)
    | AddConnections(node: PeerId, connections: seq<PeerId>)
    | RemoveConnections(node: PeerId, connections: seq<PeerId>)
  {
    /** The calls any account may sign, each about one node. */
    predicate IsUserCall() {
      ClaimNode? || RemoveClaim? || TransferNode? || AddConnections? || RemoveConnections?
    }
  }

  datatype Tables = Tables(
    wellKnown: set<PeerId>,
    owners: map<PeerId, AccountId>,
    connections: map<PeerId, set<PeerId>>)
  {
    predicate OwnedBy(node: PeerId, who: AccountId) {
      node in owners && owners[node] == who
    }

    /** The additional connections of a node; an absent row reads as the empty set. */
    function Links(node: PeerId): set<PeerId> {
      if node in connections then connections[node] else {}
    }

    /** The nodes allowed to connect to `node`. */
    function Authorized(node: PeerId): set<PeerId> {
      Links(node) + (if node in wellKnown then wellKnown - {node} else {})
    }
  }

  /** Everything the tables say about one node. */
  datatype Row = Row(known: bool, owner: Option<AccountId>, links: Option<set<PeerId>>)

  function RowOf(t: Tables, node: PeerId): Row {
    Row(node in t.wellKnown,
        if node in t.owners then Some(t.owners[node]) else None,
        if node in t.connections then Some(t.connections[node]) else None)
  }

  /** Tables with the same rows are the same tables. */
  lemma RowsDetermineTables(t: Tables, u: Tables)
    requires forall n :: RowOf(t, n) == RowOf(u, n)
    ensures t == u
  {
    assert forall n :: n in t.wellKnown <==> RowOf(t, n).known;
    assert forall n :: n in u.wellKnown <==> RowOf(u, n).known;
    assert t.wellKnown == u.wellKnown;
    assert forall n :: n in t.owners <==> RowOf(t, n).owner.Some?;
    assert forall n :: n in u.owners <==> RowOf(u, n).owner.Some?;
    assert t.owners == u.owners;
    assert forall n :: n in t.connections <==> RowOf(t, n).links.Some?;
    assert forall n :: n in u.connections <==> RowOf(u, n).links.Some?;
    assert t.connections == u.connections;
  }

  datatype Outcome = Outcome(tables: Tables, emitted: seq<Event>, result: DispatchResult)

  function Refuse(t: Tables, e: Error): Outcome {
    Outcome(t, [], Err(e))
  }

  function Accept(t: Tables, e: Event): Outcome {
    Outcome(t, [e], Ok)
  }

  // ---------------------------------------------------------------- privileged calls

  function AddNode(cfg: Config, t: Tables, o: Origin, node: PeerId, owner: AccountId): Outcome {
    if !cfg.addOrigin(o) then Refuse(t, BadOrigin)
    else if !cfg.Short(node) then Refuse(t, PeerIdTooLong)
    else if |t.wellKnown| >= cfg.maxWellKnownNodes then Refuse(t, TooManyNodes)
    else if node in t.wellKnown then Refuse(t, AlreadyJoined)
    else Accept(t.(wellKnown := t.wellKnown + {node}, owners := t.owners[node := owner]), NodeAdded(node, owner))
  }

  function RemoveNode(cfg: Config, t: Tables, o: Origin, node: PeerId): Outcome {
    if !cfg.removeOrigin(o) then Refuse(t, BadOrigin)
    else if !cfg.Short(node) then Refuse(t, PeerIdTooLong)
    else if node !in t.wellKnown then Refuse(t, NotExist)
    else Accept(Tables(t.wellKnown - {node}, t.owners - {node}, t.connections - {node}), NodeRemoved(node))
  }

  /** Exchange two rows of a storage map, presence included. */
  function SwapRows<V>(m: map<PeerId, V>, a: PeerId, b: PeerId): map<PeerId, V> {
    var rest := m - {a, b};
    var moved := if a in m then rest[b := m[a]] else rest;
    if b in m then moved[a := m[b]] else moved
  }

  function Swapped(t: Tables, remove: PeerId, add: PeerId): Tables {
    Tables(t.wellKnown - {remove} + {add}, SwapRows(t.owners, remove, add), SwapRows(t.connections, remove, add))
  }

  function SwapNode(cfg: Config, t: Tables, o: Origin, remove: PeerId, add: PeerId): Outcome {
    if !cfg.swapOrigin(o) then Refuse(t, BadOrigin)
    else if !cfg.Short(remove) || !cfg.Short(add) then Refuse(t, PeerIdTooLong)
    else if remove == add then Outcome(t, [], Ok)
    else if remove !in t.wellKnown then Refuse(t, NotExist)
    else if add in t.wellKnown then Refuse(t, AlreadyJoined)
    else Accept(Swapped(t, remove, add), NodeSwapped(remove, add))
  }

  function Ids(nodes: NodeList): set<PeerId> {
    set i | 0 <= i < |nodes| :: nodes[i].0
  }

  /** The account of the last entry for `node`. */
  function LastOwner(nodes: NodeList, node: PeerId): AccountId
    requires node in Ids(nodes)
  {
    var n := |nodes| - 1;
    if nodes[n].0 == node then nodes[n].1 else
      assert node in Ids(nodes[..n]) by {
        var i :| 0 <= i < |nodes| && nodes[i].0 == node;
        assert nodes[..n][i].0 == node;
      }
      LastOwner(nodes[..n], node)
  }

  /** What genesis and a reset do: the listed ids become the well-known set and each gets the
      owner of its last entry; all other owners and all connections stay. */
  function Initialized(t: Tables, nodes: NodeList): Tables {
    t.(wellKnown := Ids(nodes),
       owners := map n | n in t.owners.Keys + Ids(nodes) ::
                   if n in Ids(nodes) then LastOwner(nodes, n) else t.owners[n])
  }

  function ResetNodes(cfg: Config, t: Tables, o: Origin, nodes: NodeList): Outcome {
    if !cfg.resetOrigin(o) then Refuse(t, BadOrigin)
    else if |nodes| >= cfg.maxWellKnownNodes then Refuse(t, TooManyNodes)
    else Accept(Initialized(t, nodes), NodesReset(nodes))
  }

  function Genesis(nodes: NodeList): Tables {
    Initialized(Tables({}, map[], map[]), nodes)
  }

  // ---------------------------------------------------------------- calls open to every account

  function Claim(cfg: Config, t: Tables, o: Origin, node: PeerId): Outcome {
    if !o.Signed? then Refuse(t, BadOrigin)
    else if !cfg.Short(node) then Refuse(t, PeerIdTooLong)
    else if node in t.owners then Refuse(t, AlreadyClaimed)
    else Accept(t.(owners := t.owners[node := o.who]), NodeClaimed(node, o.who))
  }

  /** The checks shared by the calls only a node's owner may make. */
  function OwnerCheck(cfg: Config, t: Tables, o: Origin, node: PeerId): DispatchResult {
    if !o.Signed? then Err(BadOrigin)
    else if !cfg.Short(node) then Err(PeerIdTooLong)
    else if node !in t.owners then Err(NotClaimed)
    else if t.owners[node] != o.who then Err(NotOwner)
    else Ok
  }

  function Unclaim(cfg: Config, t: Tables, o: Origin, node: PeerId): Outcome {
    var check := OwnerCheck(cfg, t, o, node);
    if check.Err? then Refuse(t, check.error)
    else if node in t.wellKnown then Refuse(t, PermissionDenied)
    else Accept(t.(owners := t.owners - {node}, connections := t.connections - {node}), ClaimRemoved(node, o.who))
  }

  function Transfer(cfg: Config, t: Tables, o: Origin, node: PeerId, owner: AccountId): Outcome {
    var check := OwnerCheck(cfg, t, o, node);
    if check.Err? then Refuse(t, check.error)
    else Accept(t.(owners := t.owners[node := owner]), NodeTransferred(node, owner))
  }

  function Connect(cfg: Config, t: Tables, o: Origin, node: PeerId, connections: seq<PeerId>): Outcome {
    var check := OwnerCheck(cfg, t, o, node);
    if check.Err? then Refuse(t, check.error)
    else Accept(t.(connections := t.connections[node := t.Links(node) + (Members(connections) - {node})]),
                ConnectionsAdded(node, connections))
  }

  function Disconnect(cfg: Config, t: Tables, o: Origin, node: PeerId, connections: seq<PeerId>): Outcome {
    var check := OwnerCheck(cfg, t, o, node);
    if check.Err? then Refuse(t, check.error)
    else Accept(t.(connections := t.connections[node := t.Links(node) - Members(connections)]),
                ConnectionsRemoved(node, connections))
  }

  // ---------------------------------------------------------------- runs

  datatype Tx = Tx(origin: Origin, call: Call)

  function Step(cfg: Config, t: Tables, tx: Tx): Outcome {
    var o := tx.origin;
    match tx.call
    case AddWellKnownNode(node, owner) => AddNode(cfg, t, o, node, owner)
    case RemoveWellKnownNode(node) => RemoveNode(cfg, t, o, node)
    case SwapWellKnownNode(remove, add) => SwapNode(cfg, t, o, remove, add)
    case ResetWellKnownNodes(nodes) => ResetNodes(cfg, t, o, nodes)
    case ClaimNode(node) => Claim(cfg, t, o, node)
    case RemoveClaim(node) => Unclaim(cfg, t, o, node)
    case TransferNode(node, owner) => Transfer(cfg, t, o, node, owner)
    case AddConnections(node, connections) => Connect(cfg, t, o, node, connections)
    case RemoveConnections(node, connections) => Disconnect(cfg, t, o, node, connections)
  }

  /** The tables after a run of calls, accepted or not. */
  function Final(cfg: Config, t: Tables, txs: seq<Tx>): Tables
    decreases txs
  {
    if txs == [] then t else Final(cfg, Step(cfg, t, txs[0]).tables, txs[1..])
  }

  /** The events a run emits. */
  function Log(cfg: Config, t: Tables, txs: seq<Tx>): seq<Event>
    decreases txs
  {
    if txs == [] then [] else
      var out := Step(cfg, t, txs[0]);
      out.emitted + Log(cfg, out.tables, txs[1..])
  }

  lemma {:induction false} FinalAppend(cfg: Config, t: Tables, txs: seq<Tx>, tx: Tx)
    ensures Final(cfg, t, txs + [tx]) == Step(cfg, Final(cfg, t, txs), tx).tables
    decreases txs
  {
    if txs == [] {
      assert txs + [tx] == [tx];
    } else {
      assert (txs + [tx])[1..] == txs[1..] + [tx];
      FinalAppend(cfg, Step(cfg, t, txs[0]).tables, txs[1..], tx);
    }
  }
}
