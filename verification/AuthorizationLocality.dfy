/** Who and what a call can affect: the calls open to every account act on one node's row alone. */
module AuthorizationLocality {
  import opened Wrappers
  import opened OrderedIds
  import opened FrameSystem
  import opened AuthorizationSpec

  // ---------------------------------------------------------------- one node at a time

  /** The pallet restricted to one node and to the calls any account may sign. */
  function RowStep(cfg: Config, row: Row, tx: Tx): (Row, DispatchResult)
    requires tx.call.IsUserCall()
  {
    if !tx.origin.Signed? then (row, Err(BadOrigin))
    else if !cfg.Short(tx.call.node) then (row, Err(PeerIdTooLong))
    else if tx.call.ClaimNode? then
      if row.owner.Some? then (row, Err(AlreadyClaimed)) else (row.(owner := Some(tx.origin.who)), Ok)
    else if row.owner.None? then (row, Err(NotClaimed))
    else if row.owner != Some(tx.origin.who) then (row, Err(NotOwner))
    else
      var links := if row.links.Some? then row.links.value else {};
      match tx.call
      case RemoveClaim(_) =>
        if row.known then (row, Err(PermissionDenied)) else (Row(false, None, None), Ok)
      case TransferNode(_, owner) => (row.(owner := Some(owner)), Ok)
      case AddConnections(node, list) => (row.(links := Some(links + (Members(list) - {node}))), Ok)
      case RemoveConnections(_, list) => (row.(links := Some(links - Members(list))), Ok)
  }

  function RowRun(cfg: Config, row: Row, txs: seq<Tx>): Row
    requires UserCalls(txs)
    decreases txs
  {
    if txs == [] then row else RowRun(cfg, RowStep(cfg, row, txs[0]).0, txs[1..])
  }

  function RowResults(cfg: Config, row: Row, txs: seq<Tx>): seq<DispatchResult>
    requires UserCalls(txs)
    decreases txs
  {
    if txs == [] then [] else
      var (next, result) := RowStep(cfg, row, txs[0]);
      [result] + RowResults(cfg, next, txs[1..])
  }

  ghost predicate UserCalls(txs: seq<Tx>) {
    forall i :: 0 <= i < |txs| ==> txs[i].call.IsUserCall()
  }

  /** The calls of a run about one node, in order. */
  function CallsOn(txs: seq<Tx>, node: PeerId): (r: seq<Tx>)
    requires UserCalls(txs)
    ensures UserCalls(r)
  {
    if txs == [] then []
    else (if txs[0].call.node == node then [txs[0]] else []) + CallsOn(txs[1..], node)
  }

  /** The results of those calls in the whole run. */
  function ResultsOn(cfg: Config, t: Tables, txs: seq<Tx>, node: PeerId): seq<DispatchResult>
    requires UserCalls(txs)
    decreases txs
  {
    if txs == [] then [] else
      var out := Step(cfg, t, txs[0]);
      (if txs[0].call.node == node then [out.result] else []) + ResultsOn(cfg, out.tables, txs[1..], node)
  }

  lemma UserStepIsLocal(cfg: Config, t: Tables, tx: Tx, node: PeerId)
    requires tx.call.IsUserCall()
    ensures var out := Step(cfg, t, tx);
            if tx.call.node == node then (RowOf(out.tables, node), out.result) == RowStep(cfg, RowOf(t, node), tx)
            else RowOf(out.tables, node) == RowOf(t, node)
  {
  }

  /** A run of user calls is, for every node, the run of that node's calls on that node's row:
      same final row, same result of each call. */
  lemma {:induction false} UserRunsFactor(cfg: Config, t: Tables, txs: seq<Tx>, node: PeerId)
    requires UserCalls(txs)
    ensures RowOf(Final(cfg, t, txs), node) == RowRun(cfg, RowOf(t, node), CallsOn(txs, node))
    ensures ResultsOn(cfg, t, txs, node) == RowResults(cfg, RowOf(t, node), CallsOn(txs, node))
    decreases txs
  {
    if txs != [] {
      var out := Step(cfg, t, txs[0]);
      UserStepIsLocal(cfg, t, txs[0], node);
      UserRunsFactor(cfg, out.tables, txs[1..], node);
      var rest := CallsOn(txs[1..], node);
      if txs[0].call.node == node {
        assert CallsOn(txs, node) == [txs[0]] + rest;
        assert ([txs[0]] + rest)[1..] == rest;
      } else {
        assert CallsOn(txs, node) == rest;
      }
    }
  }

  /** Runs of user calls that agree on each node's calls, however the nodes interleave, end in the
      same tables and give every call the same result. */
  lemma InterleavingIsIrrelevant(cfg: Config, t: Tables, txs: seq<Tx>, others: seq<Tx>)
    requires UserCalls(txs) && UserCalls(others)
    requires forall n :: CallsOn(txs, n) == CallsOn(others, n)
    ensures Final(cfg, t, txs) == Final(cfg, t, others)
    ensures forall n :: ResultsOn(cfg, t, txs, n) == ResultsOn(cfg, t, others, n)
  {
    forall n
      ensures RowOf(Final(cfg, t, txs), n) == RowOf(Final(cfg, t, others), n)
      ensures ResultsOn(cfg, t, txs, n) == ResultsOn(cfg, t, others, n)
    {
      UserRunsFactor(cfg, t, txs, n);
      UserRunsFactor(cfg, t, others, n);
    }
    RowsDetermineTables(Final(cfg, t, txs), Final(cfg, t, others));
  }

  // ---------------------------------------------------------------- an owner is alone with their nodes

  /** No call of the run is made by root or signed by `who`. */
  ghost predicate Without(who: AccountId, txs: seq<Tx>) {
    forall i :: 0 <= i < |txs| ==> txs[i].origin != Root && txs[i].origin != Signed(who)
  }

  lemma StepSparesOwner(cfg: Config, t: Tables, tx: Tx, who: AccountId, node: PeerId)
    requires cfg.RootOnly()
    requires tx.origin != Root && tx.origin != Signed(who)
    requires t.OwnedBy(node, who)
    ensures Step(cfg, t, tx).tables.wellKnown == t.wellKnown
    ensures RowOf(Step(cfg, t, tx).tables, node) == RowOf(t, node)
  {
  }

  /** With root-only privileged calls, only root can change the well-known set. */
  lemma {:induction false} OnlyRootMovesWellKnown(cfg: Config, t: Tables, txs: seq<Tx>)
    requires cfg.RootOnly()
    requires forall i :: 0 <= i < |txs| ==> txs[i].origin != Root
    ensures Final(cfg, t, txs).wellKnown == t.wellKnown
    decreases txs
  {
    if txs != [] {
      OnlyRootMovesWellKnown(cfg, Step(cfg, t, txs[0]).tables, txs[1..]);
    }
  }

  /** With root-only privileged calls, a run without root and without `who` leaves every node of
      `who` as it was: owner, connections, authorised list; nor does the well-known set change. */
  lemma {:induction false} OthersCannotTouch(cfg: Config, t: Tables, txs: seq<Tx>, who: AccountId, node: PeerId)
    requires cfg.RootOnly() && Without(who, txs)
    requires t.OwnedBy(node, who)
    ensures var u := Final(cfg, t, txs);
            && u.wellKnown == t.wellKnown
            && u.OwnedBy(node, who)
            && RowOf(u, node) == RowOf(t, node)
            && u.Authorized(node) == t.Authorized(node)
    decreases txs
  {
    if txs != [] {
      var next := Step(cfg, t, txs[0]).tables;
      StepSparesOwner(cfg, t, txs[0], who, node);
      assert RowOf(next, node).owner == Some(who);
      OthersCannotTouch(cfg, next, txs[1..], who, node);
      assert RowOf(next, node).links == RowOf(t, node).links;
    }
  }

  // ---------------------------------------------------------------- last writer wins

  /** Calls about any nodes, but about `node` only changes of its connections. */
  ghost predicate OnlyConnects(txs: seq<Tx>, node: PeerId) {
    && UserCalls(txs)
    && forall i :: 0 <= i < |txs| && txs[i].call.node == node ==> txs[i].call.AddConnections? || txs[i].call.RemoveConnections?
  }

  /** A call by the owner of `node` that decides whether `q` is one of its connections.  Listing the
      node itself in an addition decides nothing: the call skips it. */
  predicate Decides(owner: AccountId, node: PeerId, tx: Tx, q: PeerId) {
    tx.origin == Signed(owner) &&
    match tx.call
    case AddConnections(n, list) => n == node && q in list && q != node
    case RemoveConnections(n, list) => n == node && q in list
    case _ => false
  }

  /** What the last deciding call says, or `before` when there is none. */
  predicate LastWord(owner: AccountId, node: PeerId, txs: seq<Tx>, q: PeerId, before: bool)
    decreases txs
  {
    if txs == [] then before
    else
      var n := |txs| - 1;
      if Decides(owner, node, txs[n], q) then txs[n].call.AddConnections?
      else LastWord(owner, node, txs[..n], q, before)
  }

  lemma OneConnectStep(cfg: Config, t: Tables, tx: Tx, owner: AccountId, node: PeerId, q: PeerId)
    requires cfg.Short(node) && t.OwnedBy(node, owner)
    requires OnlyConnects([tx], node)
    ensures var u := Step(cfg, t, tx).tables;
            && u.OwnedBy(node, owner)
            && (q in u.Links(node) <==> if Decides(owner, node, tx, q) then tx.call.AddConnections? else q in t.Links(node))
  {
    assert tx == [tx][0];
  }

  /** Over any run that changes only the connections of `node`, whatever happens to other nodes and
      however many calls fail, `q` ends up connected exactly when the last call of the owner that
      decides about `q` is an addition, or there is none and `q` was connected before. */
  lemma {:induction false} LastWriterWins(cfg: Config, t: Tables, txs: seq<Tx>, owner: AccountId, node: PeerId, q: PeerId)
    requires cfg.Short(node) && t.OwnedBy(node, owner)
    requires OnlyConnects(txs, node)
    ensures var u := Final(cfg, t, txs);
            && u.OwnedBy(node, owner)
            && (q in u.Links(node) <==> LastWord(owner, node, txs, q, q in t.Links(node)))
    decreases |txs|
  {
    if txs != [] {
      var n := |txs| - 1;
      assert txs == txs[..n] + [txs[n]];
      FinalAppend(cfg, t, txs[..n], txs[n]);
      LastWriterWins(cfg, t, txs[..n], owner, node, q);
      OneConnectStep(cfg, Final(cfg, t, txs[..n]), txs[n], owner, node, q);
    }
  }

  lemma {:induction false} UserCallsKeepWellKnown(cfg: Config, t: Tables, txs: seq<Tx>)
    requires UserCalls(txs)
    ensures Final(cfg, t, txs).wellKnown == t.wellKnown
    decreases txs
  {
    if txs != [] {
      UserCallsKeepWellKnown(cfg, Step(cfg, t, txs[0]).tables, txs[1..]);
    }
  }

  /** Who may connect to a node after such a run: those the owner's last word connects and, for a
      well-known node, every other well-known node. */
  lemma AuthorizedAfterRun(cfg: Config, t: Tables, txs: seq<Tx>, owner: AccountId, node: PeerId, q: PeerId)
    requires cfg.Short(node) && t.OwnedBy(node, owner)
    requires OnlyConnects(txs, node)
    ensures q in Final(cfg, t, txs).Authorized(node) <==>
              || LastWord(owner, node, txs, q, node in t.connections && q in t.connections[node])
              || (node in t.wellKnown && q in t.wellKnown && q != node)
  {
    LastWriterWins(cfg, t, txs, owner, node, q);
    UserCallsKeepWellKnown(cfg, t, txs);
  }

  // ---------------------------------------------------------------- does the last mention decide?

  /** A call by the owner of `node` that lists `q` for connection or disconnection. */
  predicate Mentions(owner: AccountId, node: PeerId, tx: Tx, q: PeerId) {
    tx.origin == Signed(owner) &&
    match tx.call
    case AddConnections(n, list) => n == node && q in list
    case RemoveConnections(n, list) => n == node && q in list
    case _ => false
  }

  /** The simple law: the last mention decides, and it connects when it is an addition of another
      node; without a mention nothing changes. */
  predicate LastMention(owner: AccountId, node: PeerId, txs: seq<Tx>, q: PeerId, before: bool)
    decreases txs
  {
    if txs == [] then before
    else
      var n := |txs| - 1;
      if Mentions(owner, node, txs[n], q) then txs[n].call.AddConnections? && q != node
      else LastMention(owner, node, txs[..n], q, before)
  }

  ghost predicate SomeMention(owner: AccountId, node: PeerId, txs: seq<Tx>, q: PeerId) {
    exists i :: 0 <= i < |txs| && Mentions(owner, node, txs[i], q)
  }

  ghost predicate SomeRemoval(owner: AccountId, node: PeerId, txs: seq<Tx>, q: PeerId) {
    exists i :: 0 <= i < |txs| && Mentions(owner, node, txs[i], q) && txs[i].call.RemoveConnections?
  }

  lemma MentionsSnoc(owner: AccountId, node: PeerId, txs: seq<Tx>, q: PeerId)
    requires txs != []
    ensures var n := |txs| - 1;
            && (SomeMention(owner, node, txs, q) <==>
                  SomeMention(owner, node, txs[..n], q) || Mentions(owner, node, txs[n], q))
            && (SomeRemoval(owner, node, txs, q) <==>
                  SomeRemoval(owner, node, txs[..n], q) || (Mentions(owner, node, txs[n], q) && txs[n].call.RemoveConnections?))
  {
    var n := |txs| - 1;
    if i :| 0 <= i < n && Mentions(owner, node, txs[..n][i], q) {
      assert Mentions(owner, node, txs[i], q);
    }
    if i :| 0 <= i < n && Mentions(owner, node, txs[..n][i], q) && txs[..n][i].call.RemoveConnections? {
      assert Mentions(owner, node, txs[i], q) && txs[i].call.RemoveConnections?;
    }
    if i :| 0 <= i < |txs| && Mentions(owner, node, txs[i], q) && i < n {
      assert Mentions(owner, node, txs[..n][i], q);
    }
    if i :| 0 <= i < |txs| && Mentions(owner, node, txs[i], q) && txs[i].call.RemoveConnections? && i < n {
      assert Mentions(owner, node, txs[..n][i], q) && txs[..n][i].call.RemoveConnections?;
    }
  }

  /** For the node itself the decisive calls are its removals, the mentions all of its listings. */
  lemma {:induction false} SelfWords(owner: AccountId, node: PeerId, txs: seq<Tx>, before: bool)
    ensures LastWord(owner, node, txs, node, before) <==> before && !SomeRemoval(owner, node, txs, node)
    ensures LastMention(owner, node, txs, node, before) <==> before && !SomeMention(owner, node, txs, node)
    decreases |txs|
  {
    if txs != [] {
      MentionsSnoc(owner, node, txs, node);
      SelfWords(owner, node, txs[..|txs| - 1], before);
    }
  }

  lemma {:induction false} OtherWords(owner: AccountId, node: PeerId, txs: seq<Tx>, q: PeerId, before: bool)
    requires q != node
    ensures LastWord(owner, node, txs, q, before) == LastMention(owner, node, txs, q, before)
    decreases |txs|
  {
    if txs != [] {
      OtherWords(owner, node, txs[..|txs| - 1], q, before);
    }
  }

  /** The simple law holds of a run exactly when it is not about a node that lists itself before the
      run, that the owner's calls mention, and that none of them removes. */
  lemma LastMentionDecidesIff(cfg: Config, t: Tables, txs: seq<Tx>, owner: AccountId, node: PeerId, q: PeerId)
    requires cfg.Short(node) && t.OwnedBy(node, owner)
    requires OnlyConnects(txs, node)
    ensures (q in Final(cfg, t, txs).Links(node) <==> LastMention(owner, node, txs, q, q in t.Links(node)))
       <==> !(q == node && q in t.Links(node)
              && SomeMention(owner, node, txs, node) && !SomeRemoval(owner, node, txs, node))
  {
    LastWriterWins(cfg, t, txs, owner, node, q);
    if q == node {
      SelfWords(owner, node, txs, node in t.Links(node));
    } else {
      OtherWords(owner, node, txs, q, q in t.Links(node));
    }
  }
}
