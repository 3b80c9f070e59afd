/** The event log as a complete record of the pallet: what replaying it rebuilds, and exactly which
    sequences of events can be a log. */
module AuthorizationHistory {
  import opened OrderedIds
  import opened FrameSystem
  import opened AuthorizationSpec

  /** Apply one event, checking nothing. */
  function Replay(t: Tables, e: Event): Tables {
    match e
    case NodeAdded(node, owner) => t.(wellKnown := t.wellKnown + {node}, owners := t.owners[node := owner])
    case NodeRemoved(node) => Tables(t.wellKnown - {node}, t.owners - {node}, t.connections - {node})
    case NodeSwapped(remove, add) => Swapped(t, remove, add)
    case NodesReset(nodes) => Initialized(t, nodes)
    case NodeClaimed(node, who) => t.(owners := t.owners[node := who])
    case ClaimRemoved(node, _) => t.(owners := t.owners - {node}, connections := t.connections - {node})
    case NodeTransferred(node, owner) => t.(owners := t.owners[node := owner])
    case ConnectionsAdded(node, list) => t.(connections := t.connections[node := t.Links(node) + (Members(list) - {node})])
    case ConnectionsRemoved(node, list) => t.(connections := t.connections[node := t.Links(node) - Members(list)])
  }

  function ReplayAll(t: Tables, log: seq<Event>): Tables
    decreases log
  {
    if log == [] then t else ReplayAll(Replay(t, log[0]), log[1..])
  }

  /** When an event may happen: someone is allowed to cause it and the tables admit it. */
  ghost predicate Possible(cfg: Config, t: Tables, e: Event) {
    match e
    case NodeAdded(node, _) =>
      (exists o :: cfg.addOrigin(o)) && cfg.Short(node) && |t.wellKnown| < cfg.maxWellKnownNodes && node !in t.wellKnown
    case NodeRemoved(node) =>
      (exists o :: cfg.removeOrigin(o)) && cfg.Short(node) && node in t.wellKnown
    case NodeSwapped(remove, add) =>
      (exists o :: cfg.swapOrigin(o)) && cfg.Short(remove) && cfg.Short(add) && remove in t.wellKnown && add !in t.wellKnown
    case NodesReset(nodes) =>
      (exists o :: cfg.resetOrigin(o)) && |nodes| < cfg.maxWellKnownNodes
    case NodeClaimed(node, _) => cfg.Short(node) && node !in t.owners
    case ClaimRemoved(node, who) => cfg.Short(node) && t.OwnedBy(node, who) && node !in t.wellKnown
    case NodeTransferred(node, _) => cfg.Short(node) && node in t.owners
    case ConnectionsAdded(node, _) => cfg.Short(node) && node in t.owners
    case ConnectionsRemoved(node, _) => cfg.Short(node) && node in t.owners
  }

  /** Every event may happen in the tables the events before it replay to. */
  ghost predicate Legal(cfg: Config, t: Tables, log: seq<Event>)
    decreases log
  {
    log == [] || (Possible(cfg, t, log[0]) && Legal(cfg, Replay(t, log[0]), log[1..]))
  }

  lemma StepEmits(cfg: Config, t: Tables, tx: Tx)
    ensures var out := Step(cfg, t, tx);
            && |out.emitted| <= 1
            && (out.emitted == [] <==> out.result.Err? || (tx.call.SwapWellKnownNode? && tx.call.remove == tx.call.add))
  {
  }

  /** What an outcome says by its events alone. */
  ghost predicate Replays(t: Tables, out: Outcome) {
    && |out.emitted| <= 1
    && out.tables == if |out.emitted| == 0 then t else Replay(t, out.emitted[0])
  }

  lemma PrivilegedStepReplays(cfg: Config, t: Tables, tx: Tx)
    requires !tx.call.IsUserCall()
    ensures Replays(t, Step(cfg, t, tx))
  {
  }

  lemma UserStepReplays(cfg: Config, t: Tables, tx: Tx)
    requires tx.call.IsUserCall()
    ensures Replays(t, Step(cfg, t, tx))
  {
  }

  /** A call emits at most one event; with none the tables stay, with one its replay gives the new
      tables.  The only accepted call without an event swaps a node with itself. */
  lemma StepReplays(cfg: Config, t: Tables, tx: Tx)
    ensures var out := Step(cfg, t, tx);
            && Replays(t, out)
            && (out.emitted == [] <==> out.result.Err? || (tx.call.SwapWellKnownNode? && tx.call.remove == tx.call.add))
  {
    StepEmits(cfg, t, tx);
    if tx.call.IsUserCall() {
      UserStepReplays(cfg, t, tx);
    } else {
      PrivilegedStepReplays(cfg, t, tx);
    }
  }

  lemma StepIsPossible(cfg: Config, t: Tables, tx: Tx)
    ensures Step(cfg, t, tx).emitted != [] ==> Possible(cfg, t, Step(cfg, t, tx).emitted[0])
  {
  }

  /** Replaying the log of any run, from the tables it began with, rebuilds the tables it ended
      with; and every log is legal. */
  lemma {:induction false} LogRebuildsTables(cfg: Config, t: Tables, txs: seq<Tx>)
    ensures ReplayAll(t, Log(cfg, t, txs)) == Final(cfg, t, txs)
    ensures Legal(cfg, t, Log(cfg, t, txs))
    decreases txs
  {
    if txs != [] {
      var out := Step(cfg, t, txs[0]);
      StepReplays(cfg, t, txs[0]);
      StepIsPossible(cfg, t, txs[0]);
      LogRebuildsTables(cfg, out.tables, txs[1..]);
      var rest := Log(cfg, out.tables, txs[1..]);
      if out.emitted == [] {
        assert out.emitted + rest == rest;
      } else {
        assert (out.emitted + rest)[0] == out.emitted[0] && (out.emitted + rest)[1..] == rest;
      }
    }
  }

  /** A call that causes a possible event. */
  lemma CauseOf(cfg: Config, t: Tables, e: Event) returns (tx: Tx)
    requires Possible(cfg, t, e)
    ensures Step(cfg, t, tx) == Accept(Replay(t, e), e)
  {
    match e
    case NodeAdded(node, owner) =>
      var o :| cfg.addOrigin(o);
      tx := Tx(o, AddWellKnownNode(node, owner));
    case NodeRemoved(node) =>
      var o :| cfg.removeOrigin(o);
      tx := Tx(o, RemoveWellKnownNode(node));
    case NodeSwapped(remove, add) =>
      var o :| cfg.swapOrigin(o);
      tx := Tx(o, SwapWellKnownNode(remove, add));
    case NodesReset(nodes) =>
      var o :| cfg.resetOrigin(o);
      tx := Tx(o, ResetWellKnownNodes(nodes));
    case NodeClaimed(node, who) => tx := Tx(Signed(who), ClaimNode(node));
    case ClaimRemoved(node, who) => tx := Tx(Signed(who), RemoveClaim(node));
    case NodeTransferred(node, owner) => tx := Tx(Signed(t.owners[node]), TransferNode(node, owner));
    case ConnectionsAdded(node, list) => tx := Tx(Signed(t.owners[node]), AddConnections(node, list));
    case ConnectionsRemoved(node, list) => tx := Tx(Signed(t.owners[node]), RemoveConnections(node, list));
  }

  lemma {:induction false} RunWithLog(cfg: Config, t: Tables, log: seq<Event>) returns (txs: seq<Tx>)
    requires Legal(cfg, t, log)
    ensures Log(cfg, t, txs) == log
    decreases log
  {
    if log == [] {
      txs := [];
    } else {
      var tx := CauseOf(cfg, t, log[0]);
      var rest := RunWithLog(cfg, Replay(t, log[0]), log[1..]);
      txs := [tx] + rest;
      assert txs[1..] == rest;
      assert log == [log[0]] + log[1..];
    }
  }

  /** Under any configuration the logs of runs are exactly the legal sequences of events, so the log alone tells an auditor
      both that a history is genuine and what the tables are. */
  lemma LogsAreLegalHistories(cfg: Config, t: Tables, log: seq<Event>)
    ensures (exists txs :: Log(cfg, t, txs) == log) <==> Legal(cfg, t, log)
    ensures forall txs :: Log(cfg, t, txs) == log ==> Final(cfg, t, txs) == ReplayAll(t, log)
  {
    forall txs | Log(cfg, t, txs) == log
      ensures Legal(cfg, t, log) && Final(cfg, t, txs) == ReplayAll(t, log)
    {
      LogRebuildsTables(cfg, t, txs);
    }
    if Legal(cfg, t, log) {
      var txs := RunWithLog(cfg, t, log);
    }
  }
}
